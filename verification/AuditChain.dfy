/** The hash chain that seals one day of audit events. */
module AuditChain {
  import opened Prelude
  import opened Sorting

  /** The columns of an event as canonical text by name. */
  type Payload = map<string, string>

  /** The digest of the canonical text of a payload. */
  type Digest = Payload -> string

  datatype Event = Event(id: nat, timestamp: int, payload: Payload, rowHash: string)

  datatype Head = Head(lastEventHash: string, sealedAt: int)

  datatype SealResult = SealResult(day: int, rowsSealed: nat, lastEventHash: string, isNew: bool)

  datatype SealError = DayNotOver(day: int, today: int)

  ghost predicate CollisionFree(h: Digest) {
    (forall p, q :: h(p) == h(q) ==> p == q) && (forall p :: h(p) != "")
  }

  /** The digest of a payload, with the previous hash mixed in under its reserved name. */
  function RowHash(h: Digest, p: Payload, previous: Option<string>): string {
    h(if previous.Some? then p["__prev" := previous.value] else p)
  }

  /** The head after a list of row hashes; an empty head is not mixed in. */
  function Chain(h: Digest, hashes: seq<string>): string {
    if hashes == [] then ""
    else
      var before := Chain(h, hashes[..|hashes| - 1]);
      RowHash(h, map["row" := hashes[|hashes| - 1]], if before == "" then None else Some(before))
  }

  predicate OnDay(e: Event, day: int) {
    day * SECONDS_PER_DAY <= e.timestamp < (day + 1) * SECONDS_PER_DAY
  }

  predicate ByTimeThenId(a: Event, b: Event) {
    a.timestamp < b.timestamp || (a.timestamp == b.timestamp && a.id <= b.id)
  }

  function EventsOn(events: seq<Event>, day: int): seq<Event> {
    if events == [] then []
    else
      var most, last := EventsOn(events[..|events| - 1], day), events[|events| - 1];
      if OnDay(last, day) then most + [last] else most
  }

  function DayRows(events: seq<Event>, day: int): seq<Event> {
    Sort(EventsOn(events, day), ByTimeThenId)
  }

  function HashesOf(rows: seq<Event>): (r: seq<string>)
    ensures |r| == |rows|
    ensures forall i :: 0 <= i < |r| ==> r[i] == rows[i].rowHash
  {
    seq(|rows|, i requires 0 <= i < |rows| => rows[i].rowHash)
  }

  function HeadOf(h: Digest, events: seq<Event>, day: int): string {
    Chain(h, HashesOf(DayRows(events, day)))
  }

  /** The events from midnight to midnight, each as often as the table has it, the earlier first and then by id. */
  ghost predicate TellsDay(events: seq<Event>, day: int, rows: seq<Event>) {
    && (forall e :: multiset(rows)[e] ==
                    if day * 86400 <= e.timestamp < (day + 1) * 86400 then multiset(events)[e] else 0)
    && (forall i, j :: 0 <= i < j < |rows| ==>
          rows[i].timestamp < rows[j].timestamp ||
          (rows[i].timestamp == rows[j].timestamp && rows[i].id <= rows[j].id))
  }

  lemma DayRowsTellDay(events: seq<Event>, day: int)
    ensures TellsDay(events, day, DayRows(events, day))
  {
    var rows := EventsOn(events, day);
    EventsOnExactly(events, day);
    TimeThenIdIsOrder();
    SortPermutes(rows, ByTimeThenId);
    SortSorts(rows, ByTimeThenId);
    forall i, j | 0 <= i < j < |DayRows(events, day)|
      ensures ByTimeThenId(DayRows(events, day)[i], DayRows(events, day)[j])
    {
    }
  }

  /** The day decides the rows: with distinct ids there is only one list that tells it. */
  lemma OneAccountOfADay(events: seq<Event>, day: int, rows: seq<Event>)
    requires IdsDistinct(events) && TellsDay(events, day, rows)
    ensures rows == DayRows(events, day)
  {
    var sealed := DayRows(events, day);
    DayRowsTellDay(events, day);
    forall e ensures multiset(rows)[e] == multiset(sealed)[e] {
    }
    assert multiset(rows) == multiset(sealed);
    forall x, y | x in rows && y in rows && ByTimeThenId(x, y) && ByTimeThenId(y, x) ensures x == y {
      assert multiset(rows)[x] > 0 && multiset(rows)[y] > 0;
      assert x in multiset(events) && y in multiset(events);
      DistinctEventsDiffer(events, x, y);
    }
    TimeThenIdIsOrder();
    SortedListsAreEqual(rows, sealed, ByTimeThenId);
  }

  /**
   The chain, link by link: nothing for no rows; then the digest of the row hash alone; and from the
   second row on the digest of the row hash together with the head so far.
  */
  lemma ChainLinks(h: Digest, hashes: seq<string>, x: string)
    requires CollisionFree(h)
    ensures Chain(h, []) == "" && Chain(h, [x]) == h(map["row" := x])
    ensures hashes != [] ==> Chain(h, hashes + [x]) == h(map["row" := x, "__prev" := Chain(h, hashes)])
  {
    ChainIsEmptyIff(h, hashes);
    ChainOneMore(h, hashes, x);
    assert [x][..0] == [];
    assert Chain(h, [x][..0]) == "";
  }

  // ---- the store -----------------------------------------------------------

  ghost predicate Intact(h: Digest, events: seq<Event>) {
    forall i :: 0 <= i < |events| ==> events[i].rowHash == RowHash(h, events[i].payload, None)
  }

  ghost predicate IdsDistinct(events: seq<Event>) {
    forall i, j :: 0 <= i < j < |events| ==> events[i].id != events[j].id
  }

  class AuditLog {
    const hash: Digest
    var events: seq<Event>
    var heads: map<int, Head>

    constructor (hash: Digest)
      ensures this.hash == hash && events == [] && heads == map[]
    {
      this.hash := hash;
      events, heads := [], map[];
    }

    /** Appends one event, hashed from its own columns. */
    method Emit(id: nat, timestamp: int, payload: Payload)
      requires forall i :: 0 <= i < |events| ==> events[i].id != id
      modifies this`events
      ensures events == old(events) + [Event(id, timestamp, payload, hash(payload))]
      ensures Intact(hash, old(events)) ==> Intact(hash, events)
      ensures IdsDistinct(old(events)) ==> IdsDistinct(events)
    {
      events := events + [Event(id, timestamp, payload, RowHash(hash, payload, None))];
    }

    /**
     Seals a day that is over: the head is the chain over the rows of that day, in order of time and
     id. Sealing it again overwrites the head with whatever the rows say now.
    */
    method SealDay(day: int, now: int) returns (r: Result<SealResult, SealError>)
      modifies this`heads
      ensures r.Err? <==> now < (day + 1) * 86400
      ensures r.Err? ==> heads == old(heads) && r.error.day == day
      ensures r.Err? ==> r.error.today * 86400 <= now < (r.error.today + 1) * 86400
      ensures r.Ok? ==> heads == old(heads)[day := Head(r.value.lastEventHash, now)]
      ensures r.Ok? ==> r.value.day == day && (r.value.isNew <==> day !in old(heads))
      ensures r.Ok? ==>
                exists rows ::
                  && TellsDay(events, day, rows) && r.value.rowsSealed == |rows|
                  && r.value.lastEventHash == Chain(hash, HashesOf(rows))
      ensures r.Ok? ==> r.value.lastEventHash == HeadOf(hash, events, day)
    {
      var today := now / SECONDS_PER_DAY;
      if day >= today {
        return Err(DayNotOver(day, today));
      }
      var rows := DayRows(events, day);
      var chain := LinkRows(rows);
      DayRowsTellDay(events, day);
      var isNew := day !in heads;
      heads := heads[day := Head(chain, now)];
      r := Ok(SealResult(day, |rows|, chain, isNew));
    }

    /** The loop over the rows of a day: each link mixes in the head so far. */
    method LinkRows(rows: seq<Event>) returns (chain: string)
      ensures chain == Chain(hash, HashesOf(rows))
    {
      chain := "";
      ghost var done: seq<string> := [];
      for i := 0 to |rows|
        invariant |done| == i && done <= HashesOf(rows)
        invariant chain == Chain(hash, done)
      {
        ChainOneMore(hash, done, rows[i].rowHash);
        done := done + [rows[i].rowHash];
        chain := RowHash(hash, map["row" := rows[i].rowHash], if chain == "" then None else Some(chain));
      }
      assert done == HashesOf(rows);
    }
  }

  lemma {:induction false} ChainOneMore(h: Digest, done: seq<string>, x: string)
    ensures Chain(h, done + [x]) ==
            RowHash(h, map["row" := x], if Chain(h, done) == "" then None else Some(Chain(h, done)))
  {
    assert (done + [x])[..|done|] == done;
  }

  // ---- tamper evidence -----------------------------------------------------

  lemma ChainIsEmptyIff(h: Digest, hashes: seq<string>)
    requires CollisionFree(h)
    ensures Chain(h, hashes) == "" <==> hashes == []
  {
  }

  lemma LinkIsInjective(h: Digest, x: string, p: Option<string>, y: string, q: Option<string>)
    requires CollisionFree(h) && RowHash(h, map["row" := x], p) == RowHash(h, map["row" := y], q)
    ensures x == y && p == q
  {
    var a := if p.Some? then map["row" := x]["__prev" := p.value] else map["row" := x];
    var b := if q.Some? then map["row" := y]["__prev" := q.value] else map["row" := y];
    assert a == b;
    assert "row"[0] != "__prev"[0];
    assert a["row"] == x && b["row"] == y;
    assert p.Some? <==> "__prev" in a;
    assert q.Some? <==> "__prev" in b;
  }

  /**
   Two lists of row hashes have the same head exactly when they are the same list: changing,
   dropping, adding or reordering rows changes the head.
  */
  lemma {:induction false} EqualHeadsIffEqualRows(h: Digest, a: seq<string>, b: seq<string>)
    requires CollisionFree(h)
    ensures Chain(h, a) == Chain(h, b) <==> a == b
    decreases |a|
  {
    ChainIsEmptyIff(h, a);
    ChainIsEmptyIff(h, b);
    if a != [] && b != [] && Chain(h, a) == Chain(h, b) {
      var p, q := a[..|a| - 1], b[..|b| - 1];
      ChainIsEmptyIff(h, p);
      ChainIsEmptyIff(h, q);
      LinkIsInjective(h, a[|a| - 1], if Chain(h, p) == "" then None else Some(Chain(h, p)),
                      b[|b| - 1], if Chain(h, q) == "" then None else Some(Chain(h, q)));
      EqualHeadsIffEqualRows(h, p, q);
      assert a == p + [a[|a| - 1]] && b == q + [b[|b| - 1]];
    }
  }

  ghost function PayloadsOf(rows: seq<Event>): (r: seq<Payload>)
    ensures |r| == |rows|
    ensures forall i :: 0 <= i < |r| ==> r[i] == rows[i].payload
  {
    seq(|rows|, i requires 0 <= i < |rows| => rows[i].payload)
  }

  lemma {:induction false} EventsOnExactly(events: seq<Event>, day: int)
    ensures forall e :: e in EventsOn(events, day) <==> e in events && OnDay(e, day)
    ensures forall e :: multiset(EventsOn(events, day))[e] == if OnDay(e, day) then multiset(events)[e] else 0
  {
    if events == [] {
    } else {
      EventsOnExactly(events[..|events| - 1], day);
      assert events == events[..|events| - 1] + [events[|events| - 1]];
    }
  }

  lemma DayRowsMembers(events: seq<Event>, day: int)
    ensures forall e :: e in DayRows(events, day) <==> e in events && OnDay(e, day)
  {
    SortPermutes(EventsOn(events, day), ByTimeThenId);
    EventsOnExactly(events, day);
  }

  /**
   As long as the stored hashes are those of the columns, two tables have the same head for a day
   exactly when they tell the same story about that day, column by column and in the same order.
  */
  lemma EqualHeadsTellTheSameStory(h: Digest, before: seq<Event>, after: seq<Event>, day: int)
    requires CollisionFree(h) && Intact(h, before) && Intact(h, after)
    ensures HeadOf(h, before, day) == HeadOf(h, after, day) <==>
            PayloadsOf(DayRows(before, day)) == PayloadsOf(DayRows(after, day))
  {
    var a, b := DayRows(before, day), DayRows(after, day);
    EqualHeadsIffEqualRows(h, HashesOf(a), HashesOf(b));
    DayRowsIntact(h, before, day);
    DayRowsIntact(h, after, day);
    HashesTellPayloads(h, a, b);
  }

  lemma DayRowsIntact(h: Digest, events: seq<Event>, day: int)
    requires Intact(h, events)
    ensures Intact(h, DayRows(events, day))
  {
    DayRowsMembers(events, day);
    forall e | e in DayRows(events, day) ensures e.rowHash == RowHash(h, e.payload, None) {
      var i :| 0 <= i < |events| && events[i] == e;
    }
  }

  lemma HashesTellPayloads(h: Digest, a: seq<Event>, b: seq<Event>)
    requires CollisionFree(h) && Intact(h, a) && Intact(h, b)
    ensures HashesOf(a) == HashesOf(b) <==> PayloadsOf(a) == PayloadsOf(b)
  {
    if HashesOf(a) == HashesOf(b) {
      assert |a| == |HashesOf(a)| == |HashesOf(b)| == |b|;
      forall i | 0 <= i < |a| ensures a[i].payload == b[i].payload {
        assert HashesOf(a)[i] == HashesOf(b)[i];
      }
    }
    if PayloadsOf(a) == PayloadsOf(b) {
      assert |a| == |PayloadsOf(a)| == |PayloadsOf(b)| == |b|;
      forall i | 0 <= i < |a| ensures a[i].rowHash == b[i].rowHash {
        assert PayloadsOf(a)[i] == PayloadsOf(b)[i];
      }
    }
  }

  function Edited(e: Event, id: nat, payload: Payload): Event {
    if e.id == id then e.(payload := payload) else e
  }

  /** The table after someone rewrote the columns of one event but not its stored hash. */
  ghost function EditedTable(events: seq<Event>, id: nat, payload: Payload): (r: seq<Event>)
    ensures |r| == |events|
    ensures forall i :: 0 <= i < |r| ==> r[i] == Edited(events[i], id, payload)
  {
    seq(|events|, i requires 0 <= i < |events| => Edited(events[i], id, payload))
  }

  lemma {:induction false} InsertingEdited(s: seq<Event>, x: Event, id: nat, payload: Payload)
    ensures Insert(EditedTable(s, id, payload), Edited(x, id, payload), ByTimeThenId) ==
            EditedTable(Insert(s, x, ByTimeThenId), id, payload)
  {
    if s == [] || ByTimeThenId(s[|s| - 1], x) {
    } else {
      var most := s[..|s| - 1];
      InsertingEdited(most, x, id, payload);
      assert EditedTable(s, id, payload)[..|s| - 1] == EditedTable(most, id, payload);
    }
  }

  lemma {:induction false} SortingEdited(s: seq<Event>, id: nat, payload: Payload)
    ensures Sort(EditedTable(s, id, payload), ByTimeThenId) == EditedTable(Sort(s, ByTimeThenId), id, payload)
  {
    if s == [] {
      assert EditedTable(s, id, payload) == [];
    } else {
      var most := s[..|s| - 1];
      SortingEdited(most, id, payload);
      assert EditedTable(s, id, payload)[..|s| - 1] == EditedTable(most, id, payload);
      InsertingEdited(Sort(most, ByTimeThenId), s[|s| - 1], id, payload);
    }
  }

  lemma {:induction false} SelectingEdited(events: seq<Event>, id: nat, payload: Payload, day: int)
    ensures EventsOn(EditedTable(events, id, payload), day) == EditedTable(EventsOn(events, day), id, payload)
  {
    if events == [] {
      assert EditedTable(events, id, payload) == [];
    } else {
      var most := events[..|events| - 1];
      SelectingEdited(most, id, payload, day);
      assert EditedTable(events, id, payload)[..|events| - 1] == EditedTable(most, id, payload);
    }
  }

  /**
   The condition on stored hashes is needed: the head is computed from them alone, so rewriting the
   columns of an event under its old hash leaves the head of every day as it was.
  */
  lemma EditUnderOldHashGoesUnnoticed(h: Digest, events: seq<Event>, id: nat, payload: Payload, day: int)
    ensures HeadOf(h, EditedTable(events, id, payload), day) == HeadOf(h, events, day)
  {
    SelectingEdited(events, id, payload, day);
    SortingEdited(EventsOn(events, day), id, payload);
    assert HashesOf(EditedTable(DayRows(events, day), id, payload)) == HashesOf(DayRows(events, day));
  }

  lemma TimeThenIdIsOrder()
    ensures TotalPreorder(ByTimeThenId)
  {
  }

  lemma DistinctEventsDiffer(events: seq<Event>, a: Event, b: Event)
    requires IdsDistinct(events) && a in events && b in events && a.id == b.id
    ensures a == b
  {
  }

  /**
   Sealing again stores the same head as long as the day's rows are the same ones, in whatever
   order the table returns them and whatever was appended for other days.
  */
  lemma ResealingStoresTheSameHead(h: Digest, before: seq<Event>, after: seq<Event>, day: int)
    requires IdsDistinct(before)
    requires forall e :: OnDay(e, day) ==> multiset(before)[e] == multiset(after)[e]
    ensures HeadOf(h, before, day) == HeadOf(h, after, day)
  {
    var a, b := EventsOn(before, day), EventsOn(after, day);
    EventsOnExactly(before, day);
    EventsOnExactly(after, day);
    assert multiset(a) == multiset(b);
    forall x, y | x in a && y in a && ByTimeThenId(x, y) && ByTimeThenId(y, x) ensures x == y {
      DistinctEventsDiffer(before, x, y);
    }
    TimeThenIdIsOrder();
    SortIgnoresOrder(a, b, ByTimeThenId);
  }
}
