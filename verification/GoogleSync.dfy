/** Inbound calendar sync: the blocks of one connection are reconciled with the events Google returned. */
module GoogleSync {
  import opened Common

  datatype Content = Content(start: int, end: int, title: string)

  datatype Block = Block(employee: nat, content: Content)

  /** The content hash is taken to be injective, so the content itself stands for it. */
  datatype Mapping = Mapping(block: nat, hash: Content)

  datatype Key = Key(connection: nat, eventId: string)

  datatype Event = Event(
    id: string,
    reservedBooking: bool,
    cancelled: bool,
    start: Option<int>,
    end: Option<int>,
    summary: Option<string>)
  {
    predicate Eligible() { !reservedBooking && !cancelled && start.Some? && end.Some? }

    predicate Skipped() { reservedBooking || (!cancelled && (start.None? || end.None?)) }

    function Carried(): Content
      requires Eligible()
    {
      Content(start.value, end.value, Title(summary))
    }
  }

  function Title(summary: Option<string>): string {
    match summary
    case None => "Google Calendar"
    case Some(s) => if |s| <= 200 then s else s[..200]
  }

  datatype State = State(blocks: map<nat, Block>, mappings: map<Key, Mapping>, nextBlock: nat)

  datatype Counts = Counts(created: nat, updated: nat, deleted: nat, skipped: nat)

  const ZERO := Counts(0, 0, 0, 0)

  function Seen(events: seq<Event>): set<string> {
    set i | 0 <= i < |events| && events[i].Eligible() :: events[i].id
  }

  function Upsert(st: State, connection: nat, employee: nat, id: string, content: Content): State {
    var key := Key(connection, id);
    if key in st.mappings then
      var m := st.mappings[key];
      if m.hash == content then st
      else
        State(
          if m.block in st.blocks then st.blocks[m.block := st.blocks[m.block].(content := content)] else st.blocks,
          st.mappings[key := m.(hash := content)],
          st.nextBlock)
    else
      State(
        st.blocks[st.nextBlock := Block(employee, content)],
        st.mappings[key := Mapping(st.nextBlock, content)],
        st.nextBlock + 1)
  }

  function Tally(st: State, connection: nat, counts: Counts, ev: Event): Counts {
    if !ev.Eligible() then counts.(skipped := counts.skipped + if ev.Skipped() then 1 else 0)
    else
      var key := Key(connection, ev.id);
      if key !in st.mappings then counts.(created := counts.created + 1)
      else if st.mappings[key].hash != ev.Carried() then counts.(updated := counts.updated + 1)
      else counts
  }

  function Reconcile(st: State, connection: nat, employee: nat, events: seq<Event>): (State, Counts) {
    if events == [] then (st, ZERO)
    else
      var (st', counts) := Reconcile(st, connection, employee, events[..|events| - 1]);
      var ev := events[|events| - 1];
      (if ev.Eligible() then Upsert(st', connection, employee, ev.id, ev.Carried()) else st',
       Tally(st', connection, counts, ev))
  }

  function Unseen(st: State, connection: nat, seen: set<string>): set<Key> {
    set k | k in st.mappings && k.connection == connection && k.eventId !in seen
  }

  function BlocksOf(st: State, keys: set<Key>): set<nat> {
    set k | k in keys && k in st.mappings :: st.mappings[k].block
  }

  function DeleteUnseen(st: State, connection: nat, seen: set<string>): State {
    var gone := Unseen(st, connection, seen);
    State(st.blocks - BlocksOf(st, gone), st.mappings - gone, st.nextBlock)
  }

  function Sync(st: State, connection: nat, employee: nat, events: seq<Event>): (State, Counts) {
    var (st', counts) := Reconcile(st, connection, employee, events);
    var seen := Seen(events);
    (DeleteUnseen(st', connection, seen), counts.(deleted := |Unseen(st', connection, seen)|))
  }

  class InboundSync {
    var blocks: map<nat, Block>
    var mappings: map<Key, Mapping>
    var nextBlock: nat

    ghost function Contents(): State
      reads this
    {
      State(blocks, mappings, nextBlock)
    }

    /** The reconciliation loop of the sync, after the events were fetched. */
    method SyncInbound(connection: nat, employee: nat, events: seq<Event>) returns (counts: Counts)
      modifies this
      ensures (Contents(), counts) == Sync(old(Contents()), connection, employee, events)
    {
      var created, updated, skipped := 0, 0, 0;
      var seen: set<string> := {};
      for n := 0 to |events|
        invariant (Contents(), Counts(created, updated, 0, skipped))
               == Reconcile(old(Contents()), connection, employee, events[..n])
        invariant seen == Seen(events[..n])
      {
        var ev := events[n];
        assert events[..n + 1][..n] == events[..n];
        SeenSnoc(events[..n], ev);
        assert events[..n] + [ev] == events[..n + 1];
        if ev.reservedBooking { skipped := skipped + 1; continue; }
        if ev.cancelled { continue; }
        if ev.start.None? || ev.end.None? { skipped := skipped + 1; continue; }
        seen := seen + {ev.id};
        var content := Content(ev.start.value, ev.end.value, Title(ev.summary));
        var key := Key(connection, ev.id);
        if key in mappings {
          var existing := mappings[key];
          if existing.hash != content {
            if existing.block in blocks {
              blocks := blocks[existing.block := blocks[existing.block].(content := content)];
            }
            mappings := mappings[key := existing.(hash := content)];
            updated := updated + 1;
          }
        } else {
          blocks := blocks[nextBlock := Block(employee, content)];
          mappings := mappings[key := Mapping(nextBlock, content)];
          nextBlock := nextBlock + 1;
          created := created + 1;
        }
      }
      assert events[..|events|] == events;
      var toDelete := set k | k in mappings && k.connection == connection && k.eventId !in seen;
      var blockIds := set k | k in toDelete && k in mappings :: mappings[k].block;
      blocks := blocks - blockIds;
      mappings := mappings - toDelete;
      counts := Counts(created, updated, |toDelete|, skipped);
    }
  }

  lemma SeenSnoc(events: seq<Event>, ev: Event)
    ensures Seen(events + [ev]) == Seen(events) + if ev.Eligible() then {ev.id} else {}
  {
    var all := events + [ev];
    forall id | id in Seen(events) ensures id in Seen(all) {
      var i :| 0 <= i < |events| && events[i].Eligible() && events[i].id == id;
      assert all[i] == events[i];
    }
    if ev.Eligible() { assert all[|events|] == ev; }
  }

  // ---- What one run achieves ----

  /** Content of the last eligible event with this id. */
  function LastContent(events: seq<Event>, id: string): Content
    requires id in Seen(events)
  {
    var ev := events[|events| - 1];
    if ev.Eligible() && ev.id == id then ev.Carried()
    else
      SeenSnoc(events[..|events| - 1], ev);
      assert events[..|events| - 1] + [ev] == events;
      LastContent(events[..|events| - 1], id)
  }

  /** Every mapping has its own block, and the block carries the mapped content. */
  ghost predicate WellFormed(st: State) {
    && (forall b :: b in st.blocks ==> b < st.nextBlock)
    && (forall k :: k in st.mappings ==> BlockAgrees(st, k))
    && (forall k, k' :: k in st.mappings && k' in st.mappings && k != k' ==>
          st.mappings[k].block != st.mappings[k'].block)
  }

  ghost predicate BlockAgrees(st: State, k: Key)
    requires k in st.mappings
  {
    st.mappings[k].block in st.blocks && st.blocks[st.mappings[k].block].content == st.mappings[k].hash
  }

  function Mapped(st: State, connection: nat): set<string> {
    set k | k in st.mappings && k.connection == connection :: k.eventId
  }

  ghost predicate MapsTo(st: State, key: Key, content: Content) {
    key in st.mappings && st.mappings[key].hash == content
  }

  /** Old mappings keep their block, old blocks their employee; nothing outside the connection moves. */
  ghost predicate Extends(st: State, st': State, connection: nat) {
    && st.nextBlock <= st'.nextBlock
    && (forall k :: k in st.mappings ==> k in st'.mappings && st'.mappings[k].block == st.mappings[k].block)
    && (forall k :: k in st.mappings && k.connection != connection ==> st'.mappings[k] == st.mappings[k])
    && (forall k :: k in st'.mappings && k !in st.mappings ==>
          k.connection == connection && st.nextBlock <= st'.mappings[k].block)
    && (forall b :: b in st.blocks ==> b in st'.blocks && st'.blocks[b].employee == st.blocks[b].employee)
    && (forall b :: b in st.blocks && st'.blocks[b] != st.blocks[b] ==> OwnedBy(st, connection, b))
    && (forall b :: b in st'.blocks && b !in st.blocks ==> OwnedBy(st', connection, b))
  }

  ghost predicate OwnedBy(st: State, connection: nat, b: nat) {
    exists k :: k in st.mappings && k.connection == connection && st.mappings[k].block == b
  }

  lemma UpsertCreates(st: State, connection: nat, employee: nat, id: string, content: Content)
    requires WellFormed(st) && Key(connection, id) !in st.mappings
    ensures var st' := Upsert(st, connection, employee, id, content); WellFormed(st') && Extends(st, st', connection)
  {
    var key := Key(connection, id);
    var st' := Upsert(st, connection, employee, id, content);
    assert st.nextBlock !in st.blocks;
    forall k | k in st'.mappings ensures BlockAgrees(st', k) {
      if k != key { assert BlockAgrees(st, k); }
    }
    forall k | k in st.mappings ensures st.mappings[k].block < st.nextBlock { assert BlockAgrees(st, k); }
    assert st'.mappings[key].block == st.nextBlock;
    assert OwnedBy(st', connection, st.nextBlock);
  }

  lemma UpsertUpdates(st: State, connection: nat, employee: nat, id: string, content: Content)
    requires WellFormed(st) && Key(connection, id) in st.mappings
    ensures var st' := Upsert(st, connection, employee, id, content); WellFormed(st') && Extends(st, st', connection)
  {
    var key := Key(connection, id);
    var st' := Upsert(st, connection, employee, id, content);
    assert BlockAgrees(st, key);
    assert OwnedBy(st, connection, st.mappings[key].block);
    forall k | k in st'.mappings ensures BlockAgrees(st', k) { assert BlockAgrees(st, k); }
  }

  lemma UpsertStep(st: State, connection: nat, employee: nat, id: string, content: Content)
    requires WellFormed(st)
    ensures var st' := Upsert(st, connection, employee, id, content); WellFormed(st') && Extends(st, st', connection)
  {
    if Key(connection, id) in st.mappings {
      UpsertUpdates(st, connection, employee, id, content);
    } else {
      UpsertCreates(st, connection, employee, id, content);
    }
  }

  lemma ExtendsTransitive(a: State, b: State, c: State, connection: nat)
    requires WellFormed(a) && Extends(a, b, connection) && Extends(b, c, connection)
    ensures Extends(a, c, connection)
  {
    forall x | x in c.blocks && x !in a.blocks ensures OwnedBy(c, connection, x) {
      if x in b.blocks {
        assert OwnedBy(b, connection, x);
        var k :| k in b.mappings && k.connection == connection && b.mappings[k].block == x;
        assert c.mappings[k].block == x;
      }
    }
    forall x | x in a.blocks && c.blocks[x] != a.blocks[x] ensures OwnedBy(a, connection, x) {
      if b.blocks[x] == a.blocks[x] {
        assert OwnedBy(b, connection, x);
        var k :| k in b.mappings && k.connection == connection && b.mappings[k].block == x;
        assert x < a.nextBlock;
        assert k in a.mappings;
      }
    }
  }

  /** The connection maps what it mapped before plus every eligible id, each seen id to the content of its last
      event, each unseen one as before. */
  ghost predicate Mirrors(st: State, st': State, connection: nat, events: seq<Event>) {
    && (forall k :: k in st'.mappings <==>
          k in st.mappings || (k.connection == connection && k.eventId in Seen(events)))
    && (forall id :: id in Seen(events) ==> MapsTo(st', Key(connection, id), LastContent(events, id)))
    && (forall k :: k in st.mappings && !(k.connection == connection && k.eventId in Seen(events)) ==>
          st'.mappings[k] == st.mappings[k])
  }

  lemma LastContentSnoc(events: seq<Event>, ev: Event, id: string)
    requires id in Seen(events + [ev])
    ensures if ev.Eligible() && ev.id == id then LastContent(events + [ev], id) == ev.Carried()
            else id in Seen(events) && LastContent(events + [ev], id) == LastContent(events, id)
  {
    SeenSnoc(events, ev);
    assert (events + [ev])[..|events|] == events;
  }

  lemma UpsertMaps(mid: State, connection: nat, employee: nat, ev: Event)
    ensures ev.Eligible() ==>
      var st', key := Upsert(mid, connection, employee, ev.id, ev.Carried()), Key(connection, ev.id);
      && MapsTo(st', key, ev.Carried())
      && (forall k :: k in st'.mappings <==> k in mid.mappings || k == key)
      && (forall k :: k in mid.mappings && k != key ==> st'.mappings[k] == mid.mappings[k])
  {
  }

  lemma MirrorsStep(st: State, mid: State, connection: nat, employee: nat, events: seq<Event>, ev: Event)
    requires Mirrors(st, mid, connection, events)
    ensures Mirrors(st, if ev.Eligible() then Upsert(mid, connection, employee, ev.id, ev.Carried()) else mid,
                    connection, events + [ev])
  {
    var all := events + [ev];
    var st' := if ev.Eligible() then Upsert(mid, connection, employee, ev.id, ev.Carried()) else mid;
    SeenSnoc(events, ev);
    UpsertMaps(mid, connection, employee, ev);
    forall id | id in Seen(all) ensures MapsTo(st', Key(connection, id), LastContent(all, id)) {
      LastContentSnoc(events, ev, id);
      if id in Seen(events) { assert MapsTo(mid, Key(connection, id), LastContent(events, id)); }
    }
  }

  lemma {:induction false} ReconcileMirrors(st: State, connection: nat, employee: nat, events: seq<Event>)
    requires WellFormed(st)
    ensures var st' := Reconcile(st, connection, employee, events).0;
      WellFormed(st') && Extends(st, st', connection) && Mirrors(st, st', connection, events)
  {
    if events != [] {
      var init, ev := events[..|events| - 1], events[|events| - 1];
      assert init + [ev] == events;
      var mid := Reconcile(st, connection, employee, init).0;
      ReconcileMirrors(st, connection, employee, init);
      MirrorsStep(st, mid, connection, employee, init, ev);
      if ev.Eligible() {
        UpsertStep(mid, connection, employee, ev.id, ev.Carried());
        ExtendsTransitive(st, mid, Upsert(mid, connection, employee, ev.id, ev.Carried()), connection);
      }
    }
  }

  lemma MappedKey(st: State, connection: nat, id: string)
    ensures id in Mapped(st, connection) <==> Key(connection, id) in st.mappings
  {
  }

  function CountSkipped(events: seq<Event>): nat {
    if events == [] then 0
    else CountSkipped(events[..|events| - 1]) + if events[|events| - 1].Skipped() then 1 else 0
  }

  /** One eligible event is counted as created exactly when it adds an id that is neither mapped nor seen. */
  lemma CreatedStep(mapped: set<string>, seen: set<string>, id: string)
    ensures |(seen + {id}) - mapped| == |seen - mapped| + if id in mapped || id in seen then 0 else 1
  {
    if id in mapped || id in seen {
      assert (seen + {id}) - mapped == seen - mapped;
    } else {
      assert (seen + {id}) - mapped == (seen - mapped) + {id};
    }
  }

  lemma TallyCreated(mid: State, connection: nat, counts: Counts, ev: Event, mapped: set<string>, seen: set<string>)
    requires counts.created == |seen - mapped|
    requires Key(connection, ev.id) in mid.mappings <==> ev.id in mapped || ev.id in seen
    ensures Tally(mid, connection, counts, ev).created
         == |(seen + if ev.Eligible() then {ev.id} else {}) - mapped|
  {
    if ev.Eligible() {
      CreatedStep(mapped, seen, ev.id);
    } else {
      assert seen + {} == seen;
    }
  }

  /** created counts the eligible ids that were not mapped. */
  lemma {:induction false} CreatedCount(st: State, connection: nat, employee: nat, events: seq<Event>)
    requires WellFormed(st)
    ensures Reconcile(st, connection, employee, events).1.created == |Seen(events) - Mapped(st, connection)|
  {
    if events == [] {
      assert Seen(events) == {};
    } else {
      var init, ev := events[..|events| - 1], events[|events| - 1];
      assert init + [ev] == events;
      CreatedCount(st, connection, employee, init);
      MappedAfter(st, connection, employee, init, ev.id);
      SeenSnoc(init, ev);
      var (mid, counts) := Reconcile(st, connection, employee, init);
      TallyCreated(mid, connection, counts, ev, Mapped(st, connection), Seen(init));
    }
  }

  lemma {:induction false} SkippedCount(st: State, connection: nat, employee: nat, events: seq<Event>)
    ensures Reconcile(st, connection, employee, events).1.skipped == CountSkipped(events)
  {
    if events != [] { SkippedCount(st, connection, employee, events[..|events| - 1]); }
  }

  lemma MappedAfter(st: State, connection: nat, employee: nat, events: seq<Event>, id: string)
    requires WellFormed(st)
    ensures Key(connection, id) in Reconcile(st, connection, employee, events).0.mappings
       <==> id in Mapped(st, connection) || id in Seen(events)
  {
  }

  lemma {:induction false} KeysCount(ids: set<string>, keys: set<Key>, connection: nat)
    requires forall k :: k in keys <==> k.connection == connection && k.eventId in ids
    ensures |keys| == |ids|
    decreases ids
  {
    if ids == {} {
      assert keys == {};
    } else {
      var id :| id in ids;
      var k := Key(connection, id);
      assert k in keys;
      KeysCount(ids - {id}, keys - {k}, connection);
    }
  }

  /** After a run the mirror agrees with the source: the connection maps exactly the eligible ids, each to its own
      block carrying the content of the last event with that id. */
  lemma SyncMirrors(st: State, connection: nat, employee: nat, events: seq<Event>)
    requires WellFormed(st)
    ensures var st' := Sync(st, connection, employee, events).0;
      && WellFormed(st')
      && Mapped(st', connection) == Seen(events)
      && forall id :: id in Seen(events) ==>
           MapsTo(st', Key(connection, id), LastContent(events, id)) && BlockAgrees(st', Key(connection, id))
  {
    var mid := Reconcile(st, connection, employee, events).0;
    ReconcileMirrors(st, connection, employee, events);
    DeleteKeepsForm(mid, connection, Seen(events));
    var st' := Sync(st, connection, employee, events).0;
    forall id ensures id in Mapped(st', connection) <==> id in Seen(events) {
      MappedKey(st', connection, id);
    }
    forall id | id in Seen(events)
      ensures MapsTo(st', Key(connection, id), LastContent(events, id)) && BlockAgrees(st', Key(connection, id))
    {
      assert MapsTo(mid, Key(connection, id), LastContent(events, id));
      assert Key(connection, id) in st'.mappings;
    }
  }

  lemma DeleteKeepsForm(st: State, connection: nat, seen: set<string>)
    requires WellFormed(st)
    ensures WellFormed(DeleteUnseen(st, connection, seen))
  {
  }

  /** What the connection last knew of an id: the latest of the given events with that id, else the mapping from
      before. */
  function Known(st: State, connection: nat, events: seq<Event>, id: string): Option<Content> {
    if id in Seen(events) then Some(LastContent(events, id))
    else if Key(connection, id) in st.mappings then Some(st.mappings[Key(connection, id)].hash)
    else None
  }

  /** Eligible events that change the content last known of their id. */
  function CountChanged(st: State, connection: nat, events: seq<Event>): nat {
    if events == [] then 0
    else
      var init, ev := events[..|events| - 1], events[|events| - 1];
      var known := if ev.Eligible() then Known(st, connection, init, ev.id) else None;
      CountChanged(st, connection, init) + if known.Some? && known.value != ev.Carried() then 1 else 0
  }

  /** After a part of the loop the mapping of an id is what is known of it. */
  lemma KnownIsMapped(st: State, connection: nat, employee: nat, events: seq<Event>, id: string)
    requires WellFormed(st)
    ensures var mid := Reconcile(st, connection, employee, events).0;
      var key := Key(connection, id);
      Known(st, connection, events, id) == if key in mid.mappings then Some(mid.mappings[key].hash) else None
  {
    ReconcileMirrors(st, connection, employee, events);
    var mid := Reconcile(st, connection, employee, events).0;
    if id in Seen(events) { assert MapsTo(mid, Key(connection, id), LastContent(events, id)); }
  }

  lemma {:induction false} UpdatedCount(st: State, connection: nat, employee: nat, events: seq<Event>)
    requires WellFormed(st)
    ensures Reconcile(st, connection, employee, events).1.updated == CountChanged(st, connection, events)
  {
    if events != [] {
      var init, ev := events[..|events| - 1], events[|events| - 1];
      UpdatedCount(st, connection, employee, init);
      if ev.Eligible() { KnownIsMapped(st, connection, employee, init, ev.id); }
    }
  }

  /** The reported counts: created and deleted are the two set differences, updated the events that changed what was
      known of their id, skipped the events of the system's own bookings and those without times. */
  lemma SyncCounts(st: State, connection: nat, employee: nat, events: seq<Event>)
    requires WellFormed(st)
    ensures var counts := Sync(st, connection, employee, events).1;
      && counts.created == |Seen(events) - Mapped(st, connection)|
      && counts.deleted == |Mapped(st, connection) - Seen(events)|
      && counts.updated == CountChanged(st, connection, events)
      && counts.skipped == CountSkipped(events)
  {
    var mid := Reconcile(st, connection, employee, events).0;
    CreatedCount(st, connection, employee, events);
    SkippedCount(st, connection, employee, events);
    UpdatedCount(st, connection, employee, events);
    ReconcileMirrors(st, connection, employee, events);
    var gone := Mapped(st, connection) - Seen(events);
    var keys := Unseen(mid, connection, Seen(events));
    forall k ensures k in keys <==> k.connection == connection && k.eventId in gone {
      MappedKey(st, connection, k.eventId);
      if k.connection == connection { assert k == Key(connection, k.eventId); }
    }
    KeysCount(gone, keys, connection);
  }

  /** Other connections keep their mappings, and every block this connection did not map is untouched. */
  lemma SyncFrame(st: State, connection: nat, employee: nat, events: seq<Event>)
    requires WellFormed(st)
    ensures var st' := Sync(st, connection, employee, events).0;
      && (forall k: Key :: k.connection != connection ==>
            (k in st'.mappings <==> k in st.mappings) && (k in st.mappings ==> st'.mappings[k] == st.mappings[k]))
      && (forall b :: b in st.blocks && !OwnedBy(st, connection, b) ==>
            b in st'.blocks && st'.blocks[b] == st.blocks[b])
      && (forall b :: b in st'.blocks && b !in st.blocks ==> OwnedBy(st', connection, b))
  {
    var mid := Reconcile(st, connection, employee, events).0;
    ReconcileMirrors(st, connection, employee, events);
    var st' := Sync(st, connection, employee, events).0;
    var gone := Unseen(mid, connection, Seen(events));
    forall b | b in st'.blocks && b !in st.blocks ensures OwnedBy(st', connection, b) {
      assert OwnedBy(mid, connection, b);
      var k :| k in mid.mappings && k.connection == connection && mid.mappings[k].block == b;
      assert k in st'.mappings;
    }
  }

  // ---- A second run ----

  /** Eligible events with one id carry one content. */
  ghost predicate Consistent(events: seq<Event>) {
    forall i, j ::
      (0 <= i < |events| && 0 <= j < |events| && events[i].Eligible() && events[j].Eligible()
       && events[i].id == events[j].id)
      ==> events[i].Carried() == events[j].Carried()
  }

  ghost predicate Synced(st: State, connection: nat, events: seq<Event>) {
    && Mapped(st, connection) == Seen(events)
    && forall id :: id in Seen(events) ==> MapsTo(st, Key(connection, id), LastContent(events, id))
  }

  lemma StateEqual(st: State, st': State, connection: nat, events: seq<Event>)
    requires WellFormed(st) && WellFormed(st') && Synced(st, connection, events) && Extends(st, st', connection)
    requires Synced(st', connection, events) && st'.mappings.Keys == st.mappings.Keys
    ensures st'.blocks == st.blocks && st'.mappings == st.mappings
  {
    forall k | k in st.mappings ensures st'.mappings[k] == st.mappings[k] {
      if k.connection == connection {
        MappedKey(st, connection, k.eventId);
        assert k == Key(connection, k.eventId);
        assert MapsTo(st, k, LastContent(events, k.eventId)) && MapsTo(st', k, LastContent(events, k.eventId));
      }
    }
    assert st'.mappings == st.mappings;
    assert forall k :: k in st.mappings ==> BlockAgrees(st, k) && BlockAgrees(st', k);
    assert st'.blocks == st.blocks;
  }

  lemma {:induction false} NothingUpdated(st: State, connection: nat, employee: nat, events: seq<Event>)
    requires forall i :: 0 <= i < |events| && events[i].Eligible() ==> Key(connection, events[i].id) in st.mappings
    ensures var (st', counts) := Reconcile(st, connection, employee, events);
      && (counts.updated == 0 <==> AllMapped(st, connection, events))
      && (counts.updated == 0 ==> st' == st)
      && st'.mappings.Keys == st.mappings.Keys
      && st'.nextBlock == st.nextBlock
  {
    if events != [] {
      var init, ev := events[..|events| - 1], events[|events| - 1];
      assert forall i :: 0 <= i < |init| ==> init[i] == events[i];
      NothingUpdated(st, connection, employee, init);
      var (mid, counts) := Reconcile(st, connection, employee, init);
      AllMappedSnoc(st, connection, init, ev);
      assert init + [ev] == events;
    }
  }

  ghost predicate AllMapped(st: State, connection: nat, events: seq<Event>) {
    forall i :: 0 <= i < |events| && events[i].Eligible() ==>
      MapsTo(st, Key(connection, events[i].id), events[i].Carried())
  }

  lemma AllMappedSnoc(st: State, connection: nat, events: seq<Event>, ev: Event)
    ensures AllMapped(st, connection, events + [ev])
       <==> AllMapped(st, connection, events) && (ev.Eligible() ==> MapsTo(st, Key(connection, ev.id), ev.Carried()))
  {
    var all := events + [ev];
    assert all[|events|] == ev;
    assert forall i :: 0 <= i < |events| ==> all[i] == events[i];
  }

  lemma {:induction false} LastIsSome(events: seq<Event>, id: string) returns (i: nat)
    requires id in Seen(events)
    ensures i < |events| && events[i].Eligible() && events[i].id == id && events[i].Carried() == LastContent(events, id)
  {
    var init, ev := events[..|events| - 1], events[|events| - 1];
    if ev.Eligible() && ev.id == id {
      i := |events| - 1;
    } else {
      SeenSnoc(init, ev);
      assert init + [ev] == events;
      i := LastIsSome(init, id);
    }
  }

  lemma SecondLoop(st: State, connection: nat, employee: nat, events: seq<Event>)
    requires WellFormed(st) && Synced(st, connection, events)
    ensures var (st', counts) := Reconcile(st, connection, employee, events);
      && st' == st && counts.created == 0
      && (counts.updated == 0 <==> Consistent(events))
  {
    var st' := Reconcile(st, connection, employee, events).0;
    ReconcileMirrors(st, connection, employee, events);
    CreatedCount(st, connection, employee, events);
    assert Seen(events) - Mapped(st, connection) == {};
    forall i | 0 <= i < |events| && events[i].Eligible() ensures Key(connection, events[i].id) in st.mappings {
      assert events[i].id in Seen(events);
      MappedKey(st, connection, events[i].id);
    }
    NothingUpdated(st, connection, employee, events);
    SameKeysMapped(st, st', connection);
    StateEqual(st, st', connection, events);
    ConsistentIsAllMapped(st, connection, events);
  }

  lemma SameKeysMapped(st: State, st': State, connection: nat)
    requires st'.mappings.Keys == st.mappings.Keys
    ensures Mapped(st', connection) == Mapped(st, connection)
  {
  }

  lemma NothingToDelete(st: State, connection: nat, seen: set<string>)
    requires Mapped(st, connection) == seen
    ensures Unseen(st, connection, seen) == {} && DeleteUnseen(st, connection, seen) == st
  {
  }

  /** A second run on the same events changes nothing and creates and deletes nothing. It reports no update exactly
      when events that share an id carry the same content. */
  lemma SecondRunIsIdle(st: State, connection: nat, employee: nat, events: seq<Event>)
    requires WellFormed(st)
    ensures var st' := Sync(st, connection, employee, events).0;
      var (st'', counts) := Sync(st', connection, employee, events);
      && st'' == st'
      && counts.created == 0 && counts.deleted == 0
      && (counts.updated == 0 <==> Consistent(events))
  {
    var st' := Sync(st, connection, employee, events).0;
    SyncMirrors(st, connection, employee, events);
    SecondLoop(st', connection, employee, events);
    NothingToDelete(st', connection, Seen(events));
  }

  lemma ConsistentIsAllMapped(st: State, connection: nat, events: seq<Event>)
    requires Synced(st, connection, events)
    ensures AllMapped(st, connection, events) <==> Consistent(events)
  {
    if Consistent(events) {
      forall i | 0 <= i < |events| && events[i].Eligible()
        ensures MapsTo(st, Key(connection, events[i].id), events[i].Carried())
      {
        assert events[i].id in Seen(events);
        var j := LastIsSome(events, events[i].id);
        assert MapsTo(st, Key(connection, events[i].id), LastContent(events, events[i].id));
      }
    }
    if AllMapped(st, connection, events) {
      forall i, j | 0 <= i < |events| && 0 <= j < |events| && events[i].Eligible() && events[j].Eligible()
        && events[i].id == events[j].id
        ensures events[i].Carried() == events[j].Carried()
      {
        assert MapsTo(st, Key(connection, events[i].id), events[i].Carried());
        assert MapsTo(st, Key(connection, events[j].id), events[j].Carried());
      }
    }
  }

  // ---- The result in terms of the events ----

  /** A dated event of somebody else's that is not cancelled. */
  predicate Mirrored(ev: Event) { !ev.reservedBooking && !ev.cancelled && ev.start != None && ev.end != None }

  /** The title: the first 200 characters of the summary, or the name of the calendar. */
  predicate IsTitle(title: string, summary: Option<string>) {
    match summary
    case None => title == "Google Calendar"
    case Some(s) => |title| == (if |s| < 200 then |s| else 200) && title <= s
  }

  /** Event i is the last one mirrored with its id. */
  predicate IsLast(events: seq<Event>, i: nat) {
    && i < |events| && Mirrored(events[i])
    && forall j :: i < j < |events| && Mirrored(events[j]) ==> events[j].id != events[i].id
  }

  lemma {:induction false} LastContentIs(events: seq<Event>, i: nat)
    requires IsLast(events, i)
    ensures events[i].id in Seen(events)
    ensures LastContent(events, events[i].id).start == events[i].start.value
    ensures LastContent(events, events[i].id).end == events[i].end.value
    ensures IsTitle(LastContent(events, events[i].id).title, events[i].summary)
  {
    assert events[i].Eligible();
    var init, ev := events[..|events| - 1], events[|events| - 1];
    if i < |events| - 1 {
      assert !(ev.Eligible() && ev.id == events[i].id);
      assert forall j :: 0 <= j < |init| ==> init[j] == events[j];
      LastContentIs(init, i);
      assert init + [ev] == events;
    }
  }

  lemma SeenIff(events: seq<Event>, id: string)
    ensures id in Seen(events) <==> exists i :: 0 <= i < |events| && Mirrored(events[i]) && events[i].id == id
  {
    assert forall ev: Event :: ev.Eligible() <==> Mirrored(ev);
  }

  lemma UpsertEmployee(st: State, connection: nat, employee: nat, id: string, content: Content)
    ensures var st' := Upsert(st, connection, employee, id, content);
      forall b :: b in st'.blocks ==>
        if b in st.blocks && !(b == st.nextBlock && Key(connection, id) !in st.mappings)
        then st'.blocks[b].employee == st.blocks[b].employee else st'.blocks[b].employee == employee
  {
  }

  /** New blocks are the employee's, old ones stay whose they were. */
  lemma {:induction false} BlocksBelong(st: State, connection: nat, employee: nat, events: seq<Event>)
    requires WellFormed(st)
    ensures var st' := Reconcile(st, connection, employee, events).0;
      forall b :: b in st'.blocks ==>
        st'.blocks[b].employee == if b in st.blocks then st.blocks[b].employee else employee
  {
    if events != [] {
      var init, ev := events[..|events| - 1], events[|events| - 1];
      BlocksBelong(st, connection, employee, init);
      ReconcileMirrors(st, connection, employee, init);
      var mid := Reconcile(st, connection, employee, init).0;
      if ev.Eligible() {
        UpsertEmployee(mid, connection, employee, ev.id, ev.Carried());
        assert mid.nextBlock !in mid.blocks;
      }
    }
  }

  /** After a sync the connection maps an id if and only if some mirrored event has it. The last such event gives the
      block its times and title; a new block is the employee's, an old one stays the same block of the same employee. */
  lemma SyncEffect(st: State, connection: nat, employee: nat, events: seq<Event>, i: nat)
    requires WellFormed(st) && IsLast(events, i)
    ensures var st' := Sync(st, connection, employee, events).0;
      var key := Key(connection, events[i].id);
      && key in st'.mappings && st'.mappings[key].block in st'.blocks
      && var block := st'.blocks[st'.mappings[key].block];
      && block.content.start == events[i].start.value && block.content.end == events[i].end.value
      && IsTitle(block.content.title, events[i].summary)
      && if key in st.mappings
         then st'.mappings[key].block == st.mappings[key].block && st.mappings[key].block in st.blocks
              && block.employee == st.blocks[st.mappings[key].block].employee
         else st'.mappings[key].block !in st.blocks && block.employee == employee
  {
    var id := events[i].id;
    var key := Key(connection, id);
    LastContentIs(events, i);
    SyncMirrors(st, connection, employee, events);
    ReconcileMirrors(st, connection, employee, events);
    BlocksBelong(st, connection, employee, events);
    var st' := Sync(st, connection, employee, events).0;
    assert MapsTo(st', key, LastContent(events, id)) && BlockAgrees(st', key);
    if key in st.mappings { assert BlockAgrees(st, key); }
  }

  lemma MappedEffect(st: State, connection: nat, employee: nat, events: seq<Event>, id: string)
    requires WellFormed(st)
    ensures Key(connection, id) in Sync(st, connection, employee, events).0.mappings
       <==> exists i :: 0 <= i < |events| && Mirrored(events[i]) && events[i].id == id
  {
    SyncMirrors(st, connection, employee, events);
    SeenIff(events, id);
    MappedKey(Sync(st, connection, employee, events).0, connection, id);
  }

  /** An event of the system itself, or one not cancelled that lacks a time. */
  predicate Unusable(ev: Event) { ev.reservedBooking || (!ev.cancelled && (ev.start == None || ev.end == None)) }

  ghost function UnusableAt(events: seq<Event>): set<nat> { set i: nat | i < |events| && Unusable(events[i]) }

  lemma UnusableSnoc(events: seq<Event>, ev: Event)
    ensures UnusableAt(events + [ev]) == UnusableAt(events) + if Unusable(ev) then {|events|} else {}
  {
  }

  /** Skipped are exactly those. */
  lemma {:induction false} SkippedEffect(events: seq<Event>)
    ensures CountSkipped(events) == |UnusableAt(events)|
  {
    if events == [] {
      assert UnusableAt(events) == {};
    } else {
      var init, ev := events[..|events| - 1], events[|events| - 1];
      assert events == init + [ev];
      SkippedEffect(init);
      UnusableSnoc(init, ev);
    }
  }
}
