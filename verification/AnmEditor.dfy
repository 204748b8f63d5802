/** apps/launcher/profile_editor.cpp: the in-place edit of the native anm stream, a table of pages,
    slots and variable-length object records. */
module AnmEditor {
  import opened Options
  import opened Serial
  import opened Bytes

  const PAGES := 400
  const SLOTS_PER_PAGE := 500
  const STRIDE := 1000
  const VEHICLE_PAYLOAD := 300
  const ROOM_OFFSET := 16
  /** Entries of the vehicle catalog. */
  const CATALOG := 26
  const MAXIMUM_SIZE := 0x400_0000

  // ----- what the stream says ---------------------------------------------------------------

  function TakeU32(s: Buffer, cursor: nat): Option<u32> { if cursor + 4 <= |s| then Some(LoadU32(s, cursor)) else None }

  /** The payload of a record whose class name starts at `cursor`. */
  datatype Payload = Payload(begin: nat, end: nat)

  function RecordAt(s: Buffer, cursor: nat): (r: Option<Payload>)
    ensures r.Some? ==> cursor + 10 <= r.value.begin <= r.value.end <= |s|
  {
    var nameSize := TakeU32(s, cursor);
    if nameSize.None? || nameSize.value < 2 || nameSize.value > 256 || cursor + 4 + nameSize.value > |s| then None
    else if s[cursor + 4 + nameSize.value - 1] != 0 then None
    else
      var after := cursor + 4 + nameSize.value;
      var size := TakeU32(s, after);
      if size.None? || after + 4 + size.value > |s| then None else Some(Payload(after + 4, after + 4 + size.value))
  }

  /** "room_" at the place a vehicle record has it. */
  predicate RoomAt(s: Buffer, p: Payload) {
    && p.begin + ROOM_OFFSET + 5 <= p.end <= |s|
    && QuadAt(s, p.begin + ROOM_OFFSET) == Quad(0x72, 0x6F, 0x6F, 0x6D) && s[p.begin + ROOM_OFFSET + 4] == 0x5F
  }

  predicate IsVehicle(s: Buffer, p: Payload) {
    p.end == p.begin + VEHICLE_PAYLOAD && RoomAt(s, p) && LoadU32(s, p.begin) < CATALOG
  }

  /** One slot: the matching vehicle record if it holds the target object, and the next slot. */
  datatype Entry = Entry(own: seq<nat>, next: nat)

  function SlotAt(s: Buffer, id: nat, target: u32, cursor: nat): (r: Option<Entry>)
    ensures r.Some? ==> cursor + 4 <= r.value.next <= |s| && |r.value.own| <= 1
    ensures r.Some? && r.value.own != []
            ==> id == target && cursor < r.value.own[0] && r.value.own[0] + VEHICLE_PAYLOAD <= r.value.next
  {
    var word := TakeU32(s, cursor);
    if word.None? then None
    else if word.value == NULL_OBJECT then Some(Entry([], cursor + 4))
    else if word.value != id then None
    else
      var record := RecordAt(s, cursor + 4);
      if record.None? then None
      else if id != target then Some(Entry([], record.value.end))
      else if IsVehicle(s, record.value) then Some(Entry([record.value.begin], record.value.end))
      else None
  }

  function Then(first: Entry, rest: Option<Entry>): Option<Entry> {
    if rest.None? then None else Some(Entry(first.own + rest.value.own, rest.value.next))
  }

  /** The slots of a page from `slot` on. */
  function ScanSlots(s: Buffer, page: nat, slot: nat, target: u32, cursor: nat): (r: Option<Entry>)
    requires cursor <= |s|
    ensures r.Some? ==> cursor <= r.value.next <= |s|
    decreases |s| - cursor
  {
    if slot >= SLOTS_PER_PAGE then Some(Entry([], cursor))
    else
      var e := SlotAt(s, page * STRIDE + slot, target, cursor);
      if e.None? then None else Then(e.value, ScanSlots(s, page, slot + 1, target, e.value.next))
  }

  /** The slots of a page, if it is populated. */
  function PageSlots(s: Buffer, page: nat, target: u32, cursor: nat): (r: Option<Entry>)
    requires cursor <= |s|
    ensures r.Some? ==> cursor + 4 <= r.value.next <= |s|
  {
    var populated := TakeU32(s, cursor);
    if populated.None? || populated.value > 1 then None
    else if populated.value == 0 then Some(Entry([], cursor + 4))
    else ScanSlots(s, page, 0, target, cursor + 4)
  }

  /** A page: whether it is populated, its slots if so, and its terminator. */
  function PageAt(s: Buffer, page: nat, target: u32, cursor: nat): (r: Option<Entry>)
    requires cursor <= |s|
    ensures r.Some? ==> cursor + 8 <= r.value.next <= |s|
  {
    var slots := PageSlots(s, page, target, cursor);
    if slots.None? || TakeU32(s, slots.value.next) != Some(END_PAGE) then None
    else Some(Entry(slots.value.own, slots.value.next + 4))
  }

  function ScanPages(s: Buffer, page: nat, target: u32, cursor: nat): (r: Option<Entry>)
    requires cursor <= |s|
    ensures r.Some? ==> cursor <= r.value.next <= |s|
    decreases |s| - cursor
  {
    if page >= PAGES then Some(Entry([], cursor))
    else
      var e := PageAt(s, page, target, cursor);
      if e.None? then None else Then(e.value, ScanPages(s, page + 1, target, e.value.next))
  }

  /** Offset of the target's vehicle record in a well-formed stream. */
  function Parse(s: Buffer, target: u32): (r: Option<nat>)
    ensures r.Some? ==> r.value + VEHICLE_PAYLOAD <= |s|
  {
    var whole := ScanPages(s, 0, target, 0);
    if whole.None? || whole.value.next != |s| || |whole.value.own| != 1 then None
    else
      PagesBounds(s, 0, target, 0);
      Some(whole.value.own[0])
  }

  // ----- where things are, and how often ----------------------------------------------------

  /** Slots are numbered upwards, so at most one of them can hold the target. */
  lemma {:induction false} SlotsBounds(s: Buffer, page: nat, slot: nat, target: u32, cursor: nat)
    requires cursor <= |s| && ScanSlots(s, page, slot, target, cursor).Some?
    ensures var e := ScanSlots(s, page, slot, target, cursor).value;
            && cursor <= e.next <= |s| && |e.own| <= 1
            && (e.own != [] ==>
                  && page * STRIDE + slot <= target < page * STRIDE + SLOTS_PER_PAGE
                  && cursor < e.own[0] && e.own[0] + VEHICLE_PAYLOAD <= e.next)
    decreases |s| - cursor
  {
    if slot < SLOTS_PER_PAGE {
      var e := SlotAt(s, page * STRIDE + slot, target, cursor).value;
      SlotsBounds(s, page, slot + 1, target, e.next);
    }
  }

  lemma PageBounds(s: Buffer, page: nat, target: u32, cursor: nat)
    requires cursor <= |s| && PageAt(s, page, target, cursor).Some?
    ensures var e := PageAt(s, page, target, cursor).value;
            && cursor + 8 <= e.next <= |s| && |e.own| <= 1
            && (e.own != [] ==>
                  && page * STRIDE <= target < page * STRIDE + SLOTS_PER_PAGE
                  && cursor + 4 < e.own[0] && e.own[0] + VEHICLE_PAYLOAD <= e.next)
  {
    if TakeU32(s, cursor) != Some(0) {
      SlotsBounds(s, page, 0, target, cursor + 4);
    }
  }

  /** `matching_objects` never exceeds one. */
  lemma {:induction false} PagesBounds(s: Buffer, page: nat, target: u32, cursor: nat)
    requires cursor <= |s| && ScanPages(s, page, target, cursor).Some?
    ensures var e := ScanPages(s, page, target, cursor).value;
            && cursor <= e.next <= |s| && |e.own| <= 1
            && (e.own != [] ==> page * STRIDE <= target && cursor < e.own[0] && e.own[0] + VEHICLE_PAYLOAD <= e.next)
    decreases |s| - cursor
  {
    if page < PAGES {
      var e := PageAt(s, page, target, cursor).value;
      PageBounds(s, page, target, cursor);
      PagesBounds(s, page + 1, target, e.next);
      AtMostOne(e.own, ScanPages(s, page + 1, target, e.next).value.own);
    }
  }

  lemma AtMostOne(a: seq<nat>, b: seq<nat>)
    requires |a| <= 1 && |b| <= 1 && (a == [] || b == [])
    ensures a + b == if a == [] then b else a
  {
  }

  // ----- what an edit leaves alone ----------------------------------------------------------

  lemma RecordFrame(s: Buffer, r: Buffer, cursor: nat)
    requires RecordAt(s, cursor).Some? && Agree(s, r, cursor, RecordAt(s, cursor).value.begin)
    ensures RecordAt(r, cursor) == RecordAt(s, cursor)
  {
    assert LoadU32(s, cursor) == LoadU32(r, cursor);
    var after := cursor + 4 + LoadU32(s, cursor);
    assert LoadU32(s, after) == LoadU32(r, after);
  }

  lemma VehicleFrame(s: Buffer, r: Buffer, p: Payload)
    requires p.begin <= p.end <= |s| && Agree(s, r, p.begin + 4, p.end)
    ensures RoomAt(r, p) == RoomAt(s, p)
  {
  }

  lemma SlotFrame(s: Buffer, r: Buffer, id: nat, target: u32, cursor: nat)
    requires SlotAt(s, id, target, cursor).Some? && Agree(s, r, cursor, SlotAt(s, id, target, cursor).value.next)
    ensures SlotAt(r, id, target, cursor) == SlotAt(s, id, target, cursor)
  {
    assert LoadU32(s, cursor) == LoadU32(r, cursor);
    if LoadU32(s, cursor) != NULL_OBJECT {
      var p := RecordAt(s, cursor + 4).value;
      RecordFrame(s, r, cursor + 4);
      VehicleFrame(s, r, p);
      assert id == target ==> LoadU32(s, p.begin) == LoadU32(r, p.begin);
    }
  }

  /** Another vehicle type stored over the matching record keeps it a record exactly when the
      catalog has that type. */
  lemma SlotSelected(s: Buffer, r: Buffer, id: nat, target: u32, cursor: nat, v: nat, index: u32)
    requires SlotAt(s, id, target, cursor).Some? && SlotAt(s, id, target, cursor).value.own == [v]
    requires Agree(s, r, cursor, v) && Agree(s, r, v + 4, SlotAt(s, id, target, cursor).value.next)
             && LoadU32(r, v) == index
    ensures SlotAt(r, id, target, cursor) == if index < CATALOG then SlotAt(s, id, target, cursor) else None
  {
    assert LoadU32(s, cursor) == LoadU32(r, cursor);
    var p := RecordAt(s, cursor + 4).value;
    assert SlotAt(s, id, target, cursor).value.own[0] == p.begin;
    RecordFrame(s, r, cursor + 4);
    VehicleFrame(s, r, p);
  }

  lemma {:induction false} SlotsFrame(s: Buffer, r: Buffer, page: nat, slot: nat, target: u32, cursor: nat)
    requires cursor <= |s| == |r| && ScanSlots(s, page, slot, target, cursor).Some?
    requires Agree(s, r, cursor, ScanSlots(s, page, slot, target, cursor).value.next)
    ensures ScanSlots(r, page, slot, target, cursor) == ScanSlots(s, page, slot, target, cursor)
    decreases |s| - cursor
  {
    if slot < SLOTS_PER_PAGE {
      var e := SlotAt(s, page * STRIDE + slot, target, cursor).value;
      SlotFrame(s, r, page * STRIDE + slot, target, cursor);
      SlotsFrame(s, r, page, slot + 1, target, e.next);
    }
  }

  lemma {:induction false} SlotsSelected(s: Buffer, r: Buffer, page: nat, slot: nat, target: u32, cursor: nat, v: nat,
                                         index: u32)
    requires cursor <= |s| == |r| && ScanSlots(s, page, slot, target, cursor).Some?
    requires ScanSlots(s, page, slot, target, cursor).value.own == [v] && v + 4 <= |s|
    requires Agree(s, r, cursor, v) && Agree(s, r, v + 4, ScanSlots(s, page, slot, target, cursor).value.next)
             && LoadU32(r, v) == index
    ensures ScanSlots(r, page, slot, target, cursor)
            == if index < CATALOG then ScanSlots(s, page, slot, target, cursor) else None
    decreases |s| - cursor
  {
    var id := page * STRIDE + slot;
    var e := SlotAt(s, id, target, cursor).value;
    var rest := ScanSlots(s, page, slot + 1, target, e.next).value;
    SlotsBounds(s, page, slot + 1, target, e.next);
    OneOfTwo(e.own, rest.own, v);
    if e.own == [v] {
      FirstSlotSelected(s, r, page, slot, target, cursor, v, index);
    } else {
      SlotFrame(s, r, id, target, cursor);
      SlotsSelected(s, r, page, slot + 1, target, e.next, v, index);
    }
  }

  lemma FirstSlotSelected(s: Buffer, r: Buffer, page: nat, slot: nat, target: u32, cursor: nat, v: nat, index: u32)
    requires cursor <= |s| == |r| && slot < SLOTS_PER_PAGE && SlotAt(s, page * STRIDE + slot, target, cursor).Some?
    requires SlotAt(s, page * STRIDE + slot, target, cursor).value.own == [v]
    requires var next := SlotAt(s, page * STRIDE + slot, target, cursor).value.next;
             && ScanSlots(s, page, slot + 1, target, next).Some?
             && Agree(s, r, cursor, v) && Agree(s, r, v + 4, ScanSlots(s, page, slot + 1, target, next).value.next)
    requires LoadU32(r, v) == index
    ensures ScanSlots(r, page, slot, target, cursor)
            == if index < CATALOG then ScanSlots(s, page, slot, target, cursor) else None
  {
    SlotSelected(s, r, page * STRIDE + slot, target, cursor, v, index);
    if index < CATALOG {
      SlotsFrame(s, r, page, slot + 1, target, SlotAt(s, page * STRIDE + slot, target, cursor).value.next);
    }
  }

  lemma OneOfTwo(a: seq<nat>, b: seq<nat>, v: nat)
    requires a + b == [v]
    ensures (a == [v] && b == []) || (a == [] && b == [v])
  {
    assert |a| + |b| == 1;
    if a != [] {
      assert (a + b)[0] == a[0];
    } else {
      assert a + b == b;
    }
  }

  lemma TakeFrame(s: Buffer, r: Buffer, cursor: nat)
    requires Agree(s, r, cursor, cursor + 4)
    ensures TakeU32(r, cursor) == TakeU32(s, cursor)
  {
  }

  lemma PageSlotsFrame(s: Buffer, r: Buffer, page: nat, target: u32, cursor: nat)
    requires cursor <= |s| == |r| && PageSlots(s, page, target, cursor).Some?
    requires Agree(s, r, cursor, PageSlots(s, page, target, cursor).value.next)
    ensures PageSlots(r, page, target, cursor) == PageSlots(s, page, target, cursor)
  {
    TakeFrame(s, r, cursor);
    if TakeU32(s, cursor) != Some(0) {
      SlotsFrame(s, r, page, 0, target, cursor + 4);
    }
  }

  /** A page with a record is populated. */
  lemma PopulatedPage(s: Buffer, page: nat, target: u32, cursor: nat, v: nat)
    requires cursor <= |s| && PageSlots(s, page, target, cursor).Some?
             && PageSlots(s, page, target, cursor).value.own == [v]
    ensures cursor + 4 <= |s| && TakeU32(s, cursor) == Some(1)
    ensures PageSlots(s, page, target, cursor) == ScanSlots(s, page, 0, target, cursor + 4)
    ensures cursor + 4 < v && v + VEHICLE_PAYLOAD <= PageSlots(s, page, target, cursor).value.next
  {
    SlotsBounds(s, page, 0, target, cursor + 4);
  }

  lemma PageSlotsSelected(s: Buffer, r: Buffer, page: nat, target: u32, cursor: nat, v: nat, index: u32)
    requires cursor <= |s| == |r| && PageSlots(s, page, target, cursor).Some?
    requires PageSlots(s, page, target, cursor).value.own == [v] && v + 4 <= |s|
    requires Agree(s, r, cursor, v) && Agree(s, r, v + 4, PageSlots(s, page, target, cursor).value.next)
             && LoadU32(r, v) == index
    ensures PageSlots(r, page, target, cursor) == if index < CATALOG then PageSlots(s, page, target, cursor) else None
  {
    PopulatedPage(s, page, target, cursor, v);
    TakeFrame(s, r, cursor);
    SlotsSelected(s, r, page, 0, target, cursor + 4, v, index);
  }

  lemma PageFrame(s: Buffer, r: Buffer, page: nat, target: u32, cursor: nat)
    requires cursor <= |s| == |r| && PageAt(s, page, target, cursor).Some?
    requires Agree(s, r, cursor, PageAt(s, page, target, cursor).value.next)
    ensures PageAt(r, page, target, cursor) == PageAt(s, page, target, cursor)
  {
    PageSlotsFrame(s, r, page, target, cursor);
    TakeFrame(s, r, PageSlots(s, page, target, cursor).value.next);
  }

  lemma PageSelected(s: Buffer, r: Buffer, page: nat, target: u32, cursor: nat, v: nat, index: u32)
    requires cursor <= |s| == |r| && PageAt(s, page, target, cursor).Some?
    requires PageAt(s, page, target, cursor).value.own == [v] && v + 4 <= |s|
    requires Agree(s, r, cursor, v) && Agree(s, r, v + 4, PageAt(s, page, target, cursor).value.next)
             && LoadU32(r, v) == index
    ensures PageAt(r, page, target, cursor) == if index < CATALOG then PageAt(s, page, target, cursor) else None
  {
    var e := PageSlots(s, page, target, cursor).value;
    PageBounds(s, page, target, cursor);
    PageSlotsSelected(s, r, page, target, cursor, v, index);
    TakeFrame(s, r, e.next);
  }

  lemma {:induction false} PagesFrame(s: Buffer, r: Buffer, page: nat, target: u32, cursor: nat)
    requires cursor <= |s| == |r| && ScanPages(s, page, target, cursor).Some?
    requires Agree(s, r, cursor, ScanPages(s, page, target, cursor).value.next)
    ensures ScanPages(r, page, target, cursor) == ScanPages(s, page, target, cursor)
    decreases |s| - cursor
  {
    if page < PAGES {
      PageFrame(s, r, page, target, cursor);
      PagesFrame(s, r, page + 1, target, PageAt(s, page, target, cursor).value.next);
    }
  }

  /** The record is on this page or on a later one. */
  lemma PageOfRecord(s: Buffer, page: nat, target: u32, cursor: nat, e: Entry, rest: Entry, v: nat)
    requires cursor <= |s| && page < PAGES && PageAt(s, page, target, cursor) == Some(e)
    requires ScanPages(s, page + 1, target, e.next) == Some(rest) && e.own + rest.own == [v]
    ensures (e.own == [v] && v + VEHICLE_PAYLOAD <= e.next) || (e.own == [] && rest.own == [v] && e.next < v)
  {
    PageBounds(s, page, target, cursor);
    PagesBounds(s, page + 1, target, e.next);
    OneOfTwo(e.own, rest.own, v);
  }

  lemma {:induction false} PagesSelected(s: Buffer, r: Buffer, page: nat, target: u32, cursor: nat, v: nat, index: u32)
    requires cursor <= |s| == |r| && ScanPages(s, page, target, cursor).Some?
    requires ScanPages(s, page, target, cursor).value.own == [v] && v + 4 <= |s|
    requires Agree(s, r, cursor, v) && Agree(s, r, v + 4, ScanPages(s, page, target, cursor).value.next)
             && LoadU32(r, v) == index
    ensures ScanPages(r, page, target, cursor) == if index < CATALOG then ScanPages(s, page, target, cursor) else None
    decreases |s| - cursor
  {
    var e := PageAt(s, page, target, cursor).value;
    var rest := ScanPages(s, page + 1, target, e.next).value;
    PageOfRecord(s, page, target, cursor, e, rest, v);
    if e.own == [v] {
      FirstPageSelected(s, r, page, target, cursor, v, index);
    } else {
      PageFrame(s, r, page, target, cursor);
      PagesSelected(s, r, page + 1, target, e.next, v, index);
    }
  }

  lemma FirstPageSelected(s: Buffer, r: Buffer, page: nat, target: u32, cursor: nat, v: nat, index: u32)
    requires cursor <= |s| == |r| && page < PAGES && PageAt(s, page, target, cursor).Some?
    requires PageAt(s, page, target, cursor).value.own == [v] && v + 4 <= PageAt(s, page, target, cursor).value.next
    requires ScanPages(s, page + 1, target, PageAt(s, page, target, cursor).value.next).Some?
    requires Agree(s, r, cursor, v) && LoadU32(r, v) == index
    requires Agree(s, r, v + 4, ScanPages(s, page + 1, target, PageAt(s, page, target, cursor).value.next).value.next)
    ensures ScanPages(r, page, target, cursor) == if index < CATALOG then ScanPages(s, page, target, cursor) else None
  {
    PageSelected(s, r, page, target, cursor, v, index);
    if index < CATALOG {
      PagesFrame(s, r, page + 1, target, PageAt(s, page, target, cursor).value.next);
    }
  }

  // ----- edit, then verify ------------------------------------------------------------------

  predicate Succeeds(s: Buffer, target: u32, write: bool, verify: bool, index: u32) {
    var v := Parse(s, target);
    v.Some? && (write || !verify || LoadU32(s, v.value) == index)
  }

  function Edited(s: Buffer, v: nat, index: u32): (r: Buffer)
    requires v + 4 <= |s|
    ensures |r| == |s|
  {
    Put(s, v, Word(index))
  }

  /** An edit changes only the four bytes of the type. The edited stream passes verification, with
      the same record, exactly when the type is in the catalog; the second edit changes nothing. */
  lemma EditThenVerify(s: Buffer, target: u32, index: u32)
    requires Parse(s, target).Some?
    ensures var v := Parse(s, target).value; var r := Edited(s, v, index);
            && (forall k :: 0 <= k < |s| && !(v <= k < v + 4) ==> r[k] == s[k])
            && (Succeeds(r, target, false, true, index) <==> index < CATALOG)
            && (index < CATALOG ==> Parse(r, target) == Some(v))
            && Edited(r, v, index) == r
  {
    var v := Parse(s, target).value;
    var r := Edited(s, v, index);
    var whole := ScanPages(s, 0, target, 0).value;
    assert whole.own == [v];
    PutLoads(s, v, index);
    PagesSelected(s, r, 0, target, 0, v, index);
  }

  // ----- the editor as the source runs it ---------------------------------------------------

  function Applied(s: Buffer, own: seq<nat>, write: bool, index: u32): (r: Buffer)
    requires own != [] ==> own[0] + 4 <= |s|
    ensures |r| == |s|
  {
    if own != [] && write then Edited(s, own[0], index) else s
  }

  predicate Passes(s: Buffer, e: Option<Entry>, write: bool, verify: bool, index: u32) {
    && e.Some?
    && (e.value.own == [] || (e.value.own[0] + 4 <= |s| && (write || !verify || LoadU32(s, e.value.own[0]) == index)))
  }

  /** A loop over the stream: `done` is behind the cursor `done.next`, `rest` before it, and only what
      is behind has been edited. */
  ghost predicate Walking(s: Buffer, whole: Option<Entry>, done: Entry, rest: Option<Entry>, write: bool, verify: bool,
                          index: u32, bytes: Buffer)
  {
    && whole == Then(done, rest) && |done.own| <= 1 && done.next <= |s|
    && (done.own != [] ==> done.own[0] + VEHICLE_PAYLOAD <= done.next)
    && Passes(s, Some(done), write, verify, index) && bytes == Applied(s, done.own, write, index)
  }

  lemma WalkingAgrees(s: Buffer, whole: Option<Entry>, done: Entry, rest: Option<Entry>, write: bool, verify: bool,
                      index: u32, bytes: Buffer)
    requires Walking(s, whole, done, rest, write, verify, index, bytes)
    ensures Agree(s, bytes, done.next, |s|)
  {
  }

  lemma WalkStarts(s: Buffer, whole: Option<Entry>, cursor: nat, write: bool, verify: bool, index: u32)
    requires cursor <= |s|
    ensures Walking(s, whole, Entry([], cursor), whole, write, verify, index, s)
  {
    if whole.Some? {
      assert [] + whole.value.own == whole.value.own;
    }
  }

  lemma WalkStep(s: Buffer, whole: Option<Entry>, done: Entry, rest: Option<Entry>, write: bool, verify: bool,
                 index: u32, bytes: Buffer, e: Entry, rest': Option<Entry>, after: Buffer)
    requires Walking(s, whole, done, rest, write, verify, index, bytes) && rest == Then(e, rest')
    requires |e.own| <= 1 && (done.own == [] || e.own == []) && done.next <= e.next <= |s|
    requires e.own != [] ==> e.own[0] + VEHICLE_PAYLOAD <= e.next
    requires Passes(bytes, Some(e), write, verify, index) && after == Applied(bytes, e.own, write, index)
    ensures Walking(s, whole, Entry(done.own + e.own, e.next), rest', write, verify, index, after)
  {
    AtMostOne(done.own, e.own);
    if rest'.Some? {
      assert done.own + e.own + rest'.value.own == done.own + (e.own + rest'.value.own);
    }
  }

  lemma WalkRefuses(s: Buffer, whole: Option<Entry>, done: Entry, rest: Option<Entry>, write: bool, verify: bool,
                    index: u32, bytes: Buffer, e: Option<Entry>, rest': Option<Entry>)
    requires Walking(s, whole, done, rest, write, verify, index, bytes)
    requires rest == if e.None? then None else Then(e.value, rest')
    requires !Passes(bytes, e, write, verify, index)
    requires e.Some? ==> |e.value.own| <= 1 && (done.own == [] || e.value.own == [])
    ensures !Passes(s, whole, write, verify, index)
  {
    if e.Some? && rest'.Some? {
      assert whole.value.own == done.own + (e.value.own + rest'.value.own);
      assert whole.value.own[0] == e.value.own[0];
    }
  }

  lemma WalkEnds(s: Buffer, whole: Option<Entry>, done: Entry, write: bool, verify: bool, index: u32, bytes: Buffer)
    requires Walking(s, whole, done, Some(Entry([], done.next)), write, verify, index, bytes)
    ensures whole == Some(done) && Passes(s, whole, write, verify, index) && bytes == Applied(s, done.own, write, index)
  {
    assert done.own + [] == done.own;
  }

  lemma SlotAgrees(s: Buffer, r: Buffer, id: nat, target: u32, cursor: nat)
    requires Agree(s, r, cursor, |s|)
    ensures SlotAt(r, id, target, cursor) == SlotAt(s, id, target, cursor)
  {
    TakeFrame(s, r, cursor);
    if TakeU32(s, cursor).Some? && TakeU32(s, cursor) != Some(NULL_OBJECT) && TakeU32(s, cursor) == Some(id) {
      RecordAgrees(s, r, cursor + 4);
      if RecordAt(s, cursor + 4).Some? {
        var p := RecordAt(s, cursor + 4).value;
        VehicleFrame(s, r, p);
        assert p.begin + 4 <= |s| ==> LoadU32(s, p.begin) == LoadU32(r, p.begin);
      }
    }
  }

  lemma RecordAgrees(s: Buffer, r: Buffer, cursor: nat)
    requires Agree(s, r, cursor, |s|)
    ensures RecordAt(r, cursor) == RecordAt(s, cursor)
  {
    TakeFrame(s, r, cursor);
    if TakeU32(s, cursor).Some? {
      TakeFrame(s, r, cursor + 4 + TakeU32(s, cursor).value);
    }
  }

  /** One slot; the answer tells whether it passed. */
  method EditSlot(bytes: array<byte>, id: nat, target: u32, cursor: nat, write: bool, verify: bool, index: u32)
    returns (ok: bool, entry: Entry)
    modifies bytes
    ensures ok <==> Passes(old(bytes[..]), SlotAt(old(bytes[..]), id, target, cursor), write, verify, index)
    ensures ok ==> SlotAt(old(bytes[..]), id, target, cursor) == Some(entry)
    ensures ok ==> bytes[..] == Applied(old(bytes[..]), entry.own, write, index)
  {
    var view := bytes[..];
    entry := Entry([], cursor);
    var word := TakeU32(view, cursor);
    if word.None? {
      return false, entry;
    }
    if word.value == NULL_OBJECT {
      return true, Entry([], cursor + 4);
    }
    var record := RecordAt(view, cursor + 4);
    if word.value != id || record.None? {
      return false, entry;
    }
    entry := Entry([], record.value.end);
    if word.value == target {
      if !IsVehicle(view, record.value) {
        return false, entry;
      }
      var v := record.value.begin;
      entry := Entry([v], record.value.end);
      if write {
        StoreU32(bytes, v, index);
      } else if verify && LoadU32(view, v) != index {
        return false, entry;
      }
    }
    ok := true;
  }

  lemma SlotRefuses(s: Buffer, whole: Option<Entry>, done: Entry, page: nat, slot: nat, target: u32,
                    write: bool, verify: bool, index: u32, bytes: Buffer)
    requires done.next <= |s| && slot < SLOTS_PER_PAGE && (done.own != [] ==> target < page * STRIDE + slot)
    requires Walking(s, whole, done, ScanSlots(s, page, slot, target, done.next), write, verify, index, bytes)
    requires !Passes(bytes, SlotAt(bytes, page * STRIDE + slot, target, done.next), write, verify, index)
    ensures !Passes(s, whole, write, verify, index)
  {
    var rest := ScanSlots(s, page, slot, target, done.next);
    WalkingAgrees(s, whole, done, rest, write, verify, index, bytes);
    SlotAgrees(s, bytes, page * STRIDE + slot, target, done.next);
    var e := SlotAt(s, page * STRIDE + slot, target, done.next);
    WalkRefuses(s, whole, done, rest, write, verify, index, bytes, e,
                if e.None? then None else ScanSlots(s, page, slot + 1, target, e.value.next));
  }

  lemma SlotStep(s: Buffer, whole: Option<Entry>, done: Entry, page: nat, slot: nat, target: u32,
                 write: bool, verify: bool, index: u32, bytes: Buffer, e: Entry, after: Buffer)
    requires done.next <= |s| && slot < SLOTS_PER_PAGE && (done.own != [] ==> target < page * STRIDE + slot)
    requires Walking(s, whole, done, ScanSlots(s, page, slot, target, done.next), write, verify, index, bytes)
    requires SlotAt(bytes, page * STRIDE + slot, target, done.next) == Some(e)
             && Passes(bytes, Some(e), write, verify, index)
    requires after == Applied(bytes, e.own, write, index)
    ensures done.next <= e.next <= |s| && (e.own != [] ==> target == page * STRIDE + slot)
    ensures Walking(s, whole, Entry(done.own + e.own, e.next), ScanSlots(s, page, slot + 1, target, e.next), write,
                    verify, index, after)
  {
    var rest := ScanSlots(s, page, slot, target, done.next);
    WalkingAgrees(s, whole, done, rest, write, verify, index, bytes);
    SlotAgrees(s, bytes, page * STRIDE + slot, target, done.next);
    WalkStep(s, whole, done, rest, write, verify, index, bytes, e, ScanSlots(s, page, slot + 1, target, e.next), after);
  }

  /** The body of the loop over the slots. */
  method EditNextSlot(bytes: array<byte>, page: nat, slot: nat, target: u32, done: Entry, write: bool, verify: bool,
                      index: u32, ghost s: Buffer, ghost whole: Option<Entry>)
    returns (ok: bool, next: Entry)
    requires done.next <= |s| && slot < SLOTS_PER_PAGE && (done.own != [] ==> target < page * STRIDE + slot)
    requires Walking(s, whole, done, ScanSlots(s, page, slot, target, done.next), write, verify, index, bytes[..])
    modifies bytes
    ensures !ok ==> !Passes(s, whole, write, verify, index)
    ensures ok ==> next.next <= |s| && (next.own != [] ==> target < page * STRIDE + slot + 1)
    ensures ok ==> Walking(s, whole, next, ScanSlots(s, page, slot + 1, target, next.next), write, verify, index,
                           bytes[..])
  {
    ghost var before := bytes[..];
    var e;
    ok, e := EditSlot(bytes, page * STRIDE + slot, target, done.next, write, verify, index);
    next := Entry(done.own + e.own, e.next);
    if ok {
      SlotStep(s, whole, done, page, slot, target, write, verify, index, before, e, bytes[..]);
    } else {
      SlotRefuses(s, whole, done, page, slot, target, write, verify, index, before);
    }
  }

  /** The loop over the slots of a page. */
  method EditSlots(bytes: array<byte>, page: nat, target: u32, cursor: nat, write: bool, verify: bool, index: u32)
    returns (ok: bool, entry: Entry)
    requires cursor <= bytes.Length
    modifies bytes
    ensures ok <==> Passes(old(bytes[..]), ScanSlots(old(bytes[..]), page, 0, target, cursor), write, verify, index)
    ensures ok ==> ScanSlots(old(bytes[..]), page, 0, target, cursor) == Some(entry)
    ensures ok ==> bytes[..] == Applied(old(bytes[..]), entry.own, write, index)
  {
    ghost var s := bytes[..];
    ghost var whole := ScanSlots(s, page, 0, target, cursor);
    entry, ok := Entry([], cursor), true;
    WalkStarts(s, whole, cursor, write, verify, index);
    var slot := 0;
    while slot < SLOTS_PER_PAGE
      invariant slot <= SLOTS_PER_PAGE && entry.next <= |s| && (entry.own != [] ==> target < page * STRIDE + slot)
      invariant Walking(s, whole, entry, ScanSlots(s, page, slot, target, entry.next), write, verify, index, bytes[..])
    {
      ok, entry := EditNextSlot(bytes, page, slot, target, entry, write, verify, index, s, whole);
      if !ok {
        return;
      }
      slot := slot + 1;
    }
    WalkEnds(s, whole, entry, write, verify, index, bytes[..]);
    ok := true;
  }

  lemma PageSlotsAgree(s: Buffer, r: Buffer, page: nat, target: u32, cursor: nat)
    requires cursor <= |s| && Agree(s, r, cursor, |s|)
    ensures PageSlots(r, page, target, cursor) == PageSlots(s, page, target, cursor)
  {
    TakeFrame(s, r, cursor);
    if cursor + 4 <= |s| {
      SlotsAgree(s, r, page, 0, target, cursor + 4);
    }
  }

  lemma PageAgrees(s: Buffer, r: Buffer, page: nat, target: u32, cursor: nat)
    requires cursor <= |s| && Agree(s, r, cursor, |s|)
    ensures PageAt(r, page, target, cursor) == PageAt(s, page, target, cursor)
  {
    var slots := PageSlots(s, page, target, cursor);
    PageSlotsAgree(s, r, page, target, cursor);
    if slots.Some? {
      TakeFrame(s, r, slots.value.next);
    }
  }

  lemma {:induction false} SlotsAgree(s: Buffer, r: Buffer, page: nat, slot: nat, target: u32, cursor: nat)
    requires cursor <= |s| && Agree(s, r, cursor, |s|)
    ensures ScanSlots(r, page, slot, target, cursor) == ScanSlots(s, page, slot, target, cursor)
    decreases |s| - cursor
  {
    if slot < SLOTS_PER_PAGE {
      SlotAgrees(s, r, page * STRIDE + slot, target, cursor);
      var e := SlotAt(s, page * STRIDE + slot, target, cursor);
      if e.Some? {
        SlotsAgree(s, r, page, slot + 1, target, e.value.next);
      }
    }
  }

  method EditPageSlots(bytes: array<byte>, page: nat, target: u32, cursor: nat, write: bool, verify: bool, index: u32)
    returns (ok: bool, entry: Entry)
    requires cursor <= bytes.Length
    modifies bytes
    ensures ok <==> Passes(old(bytes[..]), PageSlots(old(bytes[..]), page, target, cursor), write, verify, index)
    ensures ok ==> PageSlots(old(bytes[..]), page, target, cursor) == Some(entry)
    ensures ok ==> bytes[..] == Applied(old(bytes[..]), entry.own, write, index)
  {
    entry := Entry([], cursor);
    var populated := TakeU32(bytes[..], cursor);
    if populated.None? || populated.value > 1 {
      return false, entry;
    }
    if populated.value == 0 {
      return true, Entry([], cursor + 4);
    }
    ok, entry := EditSlots(bytes, page, target, cursor + 4, write, verify, index);
  }

  lemma PageSlotsBounds(s: Buffer, page: nat, target: u32, cursor: nat)
    requires cursor <= |s| && PageSlots(s, page, target, cursor).Some?
    ensures var e := PageSlots(s, page, target, cursor).value;
            e.own != [] ==> e.own[0] + VEHICLE_PAYLOAD <= e.next <= |s|
  {
    if TakeU32(s, cursor) != Some(0) {
      SlotsBounds(s, page, 0, target, cursor + 4);
    }
  }

  /** One page. */
  method EditPage(bytes: array<byte>, page: nat, target: u32, cursor: nat, write: bool, verify: bool, index: u32)
    returns (ok: bool, entry: Entry)
    requires cursor <= bytes.Length
    modifies bytes
    ensures ok <==> Passes(old(bytes[..]), PageAt(old(bytes[..]), page, target, cursor), write, verify, index)
    ensures ok ==> PageAt(old(bytes[..]), page, target, cursor) == Some(entry)
    ensures ok ==> bytes[..] == Applied(old(bytes[..]), entry.own, write, index)
  {
    ghost var s := bytes[..];
    ok, entry := EditPageSlots(bytes, page, target, cursor, write, verify, index);
    if ok {
      PageSlotsBounds(s, page, target, cursor);
      AppliedBefore(s, entry, write, index);
      ok := TakeU32(bytes[..], entry.next) == Some(END_PAGE);
      entry := Entry(entry.own, entry.next + 4);
    }
  }

  /** An edit does not reach what follows the entry. */
  lemma AppliedBefore(s: Buffer, e: Entry, write: bool, index: u32)
    requires e.own != [] ==> e.own[0] + 4 <= e.next && e.own[0] + 4 <= |s|
    ensures TakeU32(Applied(s, e.own, write, index), e.next) == TakeU32(s, e.next)
  {
    TakeFrame(s, Applied(s, e.own, write, index), e.next);
  }

  lemma PageRefuses(s: Buffer, whole: Option<Entry>, done: Entry, page: nat, target: u32,
                    write: bool, verify: bool, index: u32, bytes: Buffer)
    requires done.next <= |s| && page < PAGES && (done.own != [] ==> target < page * STRIDE)
    requires Walking(s, whole, done, ScanPages(s, page, target, done.next), write, verify, index, bytes)
    requires !Passes(bytes, PageAt(bytes, page, target, done.next), write, verify, index)
    ensures !Passes(s, whole, write, verify, index)
  {
    var rest := ScanPages(s, page, target, done.next);
    WalkingAgrees(s, whole, done, rest, write, verify, index, bytes);
    PageAgrees(s, bytes, page, target, done.next);
    var e := PageAt(s, page, target, done.next);
    if e.Some? {
      PageBounds(s, page, target, done.next);
    }
    WalkRefuses(s, whole, done, rest, write, verify, index, bytes, e,
                if e.None? then None else ScanPages(s, page + 1, target, e.value.next));
  }

  lemma PageStep(s: Buffer, whole: Option<Entry>, done: Entry, page: nat, target: u32,
                 write: bool, verify: bool, index: u32, bytes: Buffer, e: Entry, after: Buffer)
    requires done.next <= |s| && page < PAGES && (done.own != [] ==> target < page * STRIDE)
    requires Walking(s, whole, done, ScanPages(s, page, target, done.next), write, verify, index, bytes)
    requires PageAt(bytes, page, target, done.next) == Some(e) && Passes(bytes, Some(e), write, verify, index)
    requires after == Applied(bytes, e.own, write, index)
    ensures done.next <= e.next <= |s| && (e.own != [] ==> target < (page + 1) * STRIDE)
    ensures Walking(s, whole, Entry(done.own + e.own, e.next), ScanPages(s, page + 1, target, e.next), write, verify,
                    index, after)
  {
    var rest := ScanPages(s, page, target, done.next);
    WalkingAgrees(s, whole, done, rest, write, verify, index, bytes);
    PageAgrees(s, bytes, page, target, done.next);
    PageBounds(s, page, target, done.next);
    WalkStep(s, whole, done, rest, write, verify, index, bytes, e, ScanPages(s, page + 1, target, e.next), after);
  }

  /** The loop over the pages has come to `page`. */
  ghost predicate AtPage(s: Buffer, whole: Option<Entry>, page: nat, target: u32, done: Entry,
                         write: bool, verify: bool, index: u32, bytes: Buffer)
  {
    && page <= PAGES && done.next <= |s| && (done.own != [] ==> target < page * STRIDE)
    && Walking(s, whole, done, ScanPages(s, page, target, done.next), write, verify, index, bytes)
  }

  lemma PagesStart(s: Buffer, whole: Option<Entry>, target: u32, write: bool, verify: bool, index: u32)
    requires whole == ScanPages(s, 0, target, 0)
    ensures AtPage(s, whole, 0, target, Entry([], 0), write, verify, index, s)
  {
    WalkStarts(s, whole, 0, write, verify, index);
  }

  lemma PagesEnd(s: Buffer, whole: Option<Entry>, target: u32, done: Entry, write: bool, verify: bool, index: u32,
                 bytes: Buffer)
    requires AtPage(s, whole, PAGES, target, done, write, verify, index, bytes)
    ensures whole == Some(done) && Passes(s, whole, write, verify, index) && bytes == Applied(s, done.own, write, index)
  {
    WalkEnds(s, whole, done, write, verify, index, bytes);
  }

  /** The body of the loop over the pages. */
  method EditNextPage(bytes: array<byte>, page: nat, target: u32, done: Entry, write: bool, verify: bool, index: u32,
                      ghost s: Buffer, ghost whole: Option<Entry>)
    returns (ok: bool, next: Entry)
    requires page < PAGES && |s| == bytes.Length
             && AtPage(s, whole, page, target, done, write, verify, index, bytes[..])
    modifies bytes
    ensures !ok ==> !Passes(s, whole, write, verify, index)
    ensures ok ==> AtPage(s, whole, page + 1, target, next, write, verify, index, bytes[..])
  {
    ghost var before := bytes[..];
    var e;
    ok, e := EditPage(bytes, page, target, done.next, write, verify, index);
    next := Entry(done.own + e.own, e.next);
    if ok {
      PageStep(s, whole, done, page, target, write, verify, index, before, e, bytes[..]);
    } else {
      PageRefuses(s, whole, done, page, target, write, verify, index, before);
    }
  }

  /** The loop over the pages. */
  method EditAllPages(bytes: array<byte>, target: u32, write: bool, verify: bool, index: u32, ghost s: Buffer,
                      ghost whole: Option<Entry>)
    returns (ok: bool, entry: Entry)
    requires |s| == bytes.Length && AtPage(s, whole, 0, target, Entry([], 0), write, verify, index, bytes[..])
    modifies bytes
    ensures !ok ==> !Passes(s, whole, write, verify, index)
    ensures ok ==> AtPage(s, whole, PAGES, target, entry, write, verify, index, bytes[..])
  {
    entry, ok := Entry([], 0), true;
    for page := 0 to PAGES
      invariant AtPage(s, whole, page, target, entry, write, verify, index, bytes[..])
    {
      ok, entry := EditNextPage(bytes, page, target, entry, write, verify, index, s, whole);
      if !ok {
        return;
      }
    }
    ok := true;
  }

  method EditPages(bytes: array<byte>, target: u32, write: bool, verify: bool, index: u32)
    returns (ok: bool, entry: Entry)
    modifies bytes
    ensures ok <==> Passes(old(bytes[..]), ScanPages(old(bytes[..]), 0, target, 0), write, verify, index)
    ensures ok ==> ScanPages(old(bytes[..]), 0, target, 0) == Some(entry)
    ensures ok ==> bytes[..] == Applied(old(bytes[..]), entry.own, write, index)
  {
    ghost var s := bytes[..];
    ghost var whole := ScanPages(s, 0, target, 0);
    PagesStart(s, whole, target, write, verify, index);
    ok, entry := EditAllPages(bytes, target, write, verify, index, s, whole);
    if ok {
      PagesEnd(s, whole, target, entry, write, verify, index, bytes[..]);
    }
  }

  /** The whole editor on the bytes of the stream. When it refuses, the caller drops the bytes. */
  method EditNativeAnmVehicle(bytes: array<byte>, target: u32, write: bool, verify: bool, index: u32) returns (ok: bool)
    modifies bytes
    ensures ok <==> 8 <= bytes.Length <= MAXIMUM_SIZE && Succeeds(old(bytes[..]), target, write, verify, index)
    ensures ok ==> bytes[..] == if write then Edited(old(bytes[..]), Parse(old(bytes[..]), target).value, index)
            else old(bytes[..])
  {
    if bytes.Length < 8 || bytes.Length > MAXIMUM_SIZE {
      return false;
    }
    var entry;
    ok, entry := EditPages(bytes, target, write, verify, index);
    ok := ok && entry.next == bytes.Length && |entry.own| == 1;
  }
}
