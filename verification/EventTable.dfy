/**
 The `event_store` and `event_snapshots` tables: rows, the queries on them, how a row
 is built by an append and how it is read back.
 */
module EventTable {
  import opened Options
  import opened Sequences
  import opened HashChain

  /** JSON values as Python's `json` module reads them; floating-point numbers are left out. */
  datatype Json =
    | JNull
    | JBool(b: bool)
    | JInt(n: int)
    | JText(s: string)
    | JList(items: seq<Json>)
    | JObject(fields: map<string, Json>)

  type Object = map<string, Json>

  datatype EventBody = EventBody(
    id: string, eventType: string, version: string, traceId: string,
    parent: Option<string>, aggregate: Option<string>, aggregateType: Option<string>,
    data: Object, metadata: Object, sequence: int, createdAt: string)

  type Event = Link<EventBody>

  datatype Snapshot = Snapshot(aggregate: string, state: Object, version: int)

  /** The arguments of `append_event`. */
  datatype Request = Request(
    eventType: string, traceId: string, data: Object, aggregate: Option<string>,
    aggregateType: Option<string>, parent: Option<string>, metadata: Option<Object>, version: string)

  // ------------------------------------------------------------------ queries

  function ByAggregate(a: string): Event -> bool {
    (e: Event) => e.body.aggregate == Some(a)
  }

  function BySequence(): (Event, Event) -> bool {
    (x: Event, y: Event) => x.body.sequence <= y.body.sequence
  }

  /** `WHERE aggregate_id = a ORDER BY sequence ASC` */
  function Stream(table: seq<Event>, a: string): seq<Event> {
    SortBy(BySequence(), Filter(ByAggregate(a), table))
  }

  /** `_rows_to_events` on one row. */
  function ReadEvent(e: Event): Event {
    Link(e.body.(parent := ReadBack(e.body.parent),
                 aggregate := ReadBack(e.body.aggregate),
                 aggregateType := ReadBack(e.body.aggregateType)),
         ReadBack(e.hashPrev),
         e.hashSelf)
  }

  /** An aggregate's events as the store hands them out. */
  function Reads(table: seq<Event>, a: string): seq<Event> {
    Map(ReadEvent, Stream(table, a))
  }

  /** The hash and sequence number the next append to this aggregate uses. */
  function Tail(table: seq<Event>, aggregate: Option<string>): (Option<string>, int) {
    if !Truthy(aggregate) then (None, 1)
    else
      var s := Reads(table, aggregate.value);
      if s == [] then (None, 1)
      else (Some(s[|s| - 1].hashSelf), s[|s| - 1].body.sequence + 1)
  }

  /** The row `append_event` inserts. */
  function NewEvent(h: Hasher<EventBody>, req: Request, id: string, now: string,
                    prev: Option<string>, sequence: int): Event
  {
    var body := EventBody(id, req.eventType, req.version, req.traceId, req.parent, req.aggregate,
                          req.aggregateType, req.data,
                          if req.metadata.Some? then req.metadata.value else map[],
                          sequence, now);
    Link(body, prev, h(body, prev))
  }

  /** Reading the row back loses nothing: no optional column holds the empty string. */
  predicate Faithful(e: Event) {
    && e.body.parent != Some("")
    && e.body.aggregate != Some("")
    && e.body.aggregateType != Some("")
  }

  // --------------------------------------------------------------- invariants

  /** Sequences 1..n, linked digests, no predecessor for the first row. */
  ghost predicate WellFormed(h: Hasher<EventBody>, s: seq<Event>) {
    && (forall i :: 0 <= i < |s| ==> s[i].body.sequence == i + 1)
    && Accepted(h, s)
    && Rooted(s)
  }

  ghost predicate Good(h: Hasher<EventBody>, table: seq<Event>) {
    forall a :: a != "" ==> WellFormed(h, Filter(ByAggregate(a), table))
  }

  /** In a good table `ORDER BY sequence` is insertion order. */
  lemma StreamIsInsertionOrder(h: Hasher<EventBody>, table: seq<Event>, a: string)
    requires Good(h, table) && a != ""
    ensures Stream(table, a) == Filter(ByAggregate(a), table)
    ensures WellFormed(h, Stream(table, a))
  {
    var s := Filter(ByAggregate(a), table);
    assert WellFormed(h, s);
    SortOfSorted(BySequence(), s);
  }

  /** Appending a row leaves every other stream alone and extends its own by that row. */
  lemma StreamSnoc(table: seq<Event>, e: Event, a: string)
    ensures Filter(ByAggregate(a), table + [e]) ==
            Filter(ByAggregate(a), table) + if e.body.aggregate == Some(a) then [e] else []
  {
    FilterSnoc(ByAggregate(a), table, e);
  }

  /** Inserting the row built from the current tail keeps every stream of the table well formed. */
  lemma AppendKeepsGood(h: Hasher<EventBody>, table: seq<Event>, req: Request, id: string, now: string)
    requires Good(h, table)
    ensures var t := Tail(table, req.aggregate);
            Good(h, table + [NewEvent(h, req, id, now, t.0, t.1)])
  {
    var t := Tail(table, req.aggregate);
    var e := NewEvent(h, req, id, now, t.0, t.1);
    forall a | a != "" ensures WellFormed(h, Filter(ByAggregate(a), table + [e])) {
      var s := Filter(ByAggregate(a), table);
      assert WellFormed(h, s);
      StreamSnoc(table, e, a);
      StreamIsInsertionOrder(h, table, a);
      if e.body.aggregate == Some(a) {
        AcceptedSnoc(h, s, e);
      } else {
        assert s + [] == s;
      }
    }
  }

  /** `e` is numbered and linked after an event of its aggregate with the highest number, or starts the aggregate. */
  ghost predicate FollowsLatest(table: seq<Event>, a: string, e: Event) {
    if exists x :: x in table && x.body.aggregate == Some(a) then
      exists x :: x in table && x.body.aggregate == Some(a) && IsLatest(table, a, x)
                  && e.body.sequence == x.body.sequence + 1 && e.hashPrev == Some(x.hashSelf)
    else e.body.sequence == 1 && e.hashPrev == None
  }

  ghost predicate IsLatest(table: seq<Event>, a: string, x: Event) {
    forall y :: y in table && y.body.aggregate == Some(a) ==> y.body.sequence <= x.body.sequence
  }

  /** The tail query finds the newest event of the aggregate, whatever the table holds. */
  lemma TailFollowsLatest(h: Hasher<EventBody>, table: seq<Event>, req: Request, id: string, now: string)
    requires req.aggregate.Some? && req.aggregate.value != ""
    ensures var t := Tail(table, req.aggregate);
      FollowsLatest(table, req.aggregate.value, NewEvent(h, req, id, now, t.0, t.1))
  {
    var a := req.aggregate.value;
    var s := Stream(table, a);
    LastOfSelected(ByAggregate(a), BySequence(), table);
    if s != [] {
      var x := s[|s| - 1];
      assert Reads(table, a)[|s| - 1] == ReadEvent(x);
      assert x in table && x.body.aggregate == Some(a) && IsLatest(table, a, x);
    } else {
      assert forall x :: x in table ==> x.body.aggregate != Some(a);
    }
  }

  /** Readers only ever see a stream grow at its end. */
  lemma ReadsGrow(h: Hasher<EventBody>, table: seq<Event>, e: Event, a: string)
    requires Good(h, table) && Good(h, table + [e]) && a != ""
    ensures Reads(table + [e], a) ==
            Reads(table, a) + if e.body.aggregate == Some(a) then [ReadEvent(e)] else []
  {
    StreamIsInsertionOrder(h, table, a);
    StreamIsInsertionOrder(h, table + [e], a);
    StreamSnoc(table, e, a);
  }

  /** Reading back a self-consistent row: the self-hash still matches, unless a column was empty. */
  lemma ReadBackRow(h: Hasher<EventBody>, e: Event)
    requires SelfOk(h, e) && e.hashPrev != Some("")
    ensures ReadEvent(e).hashPrev == e.hashPrev
    ensures ReadEvent(e) == e <==> Faithful(e)
    ensures SelfOk(h, ReadEvent(e)) <==> Faithful(e) || Collides(h, e, ReadEvent(e))
  {
    var r := ReadEvent(e);
    if !Faithful(e) {
      assert r.body.parent != e.body.parent || r.body.aggregate != e.body.aggregate
             || r.body.aggregateType != e.body.aggregateType;
      assert r.body != e.body;
    }
  }

  /** The pointers of an append-only stream read back unchanged. */
  lemma ReadsLinked(h: Hasher<EventBody>, s: seq<Event>, i: nat)
    requires WellFormed(h, s) && i < |s|
    ensures ReadEvent(s[i]).hashPrev == if i == 0 then None else Some(s[i - 1].hashSelf)
    ensures s[i].hashPrev != Some("")
    ensures SelfOk(h, s[i])
  {
    assert SelfOk(h, s[i]) && PrevOk(s, i);
    if i > 0 {
      assert SelfOk(h, s[i - 1]);
    }
  }

  /** An append-only stream is read back rooted and linked, with sequences 1..n. */
  lemma ReadsOfWellFormed(h: Hasher<EventBody>, s: seq<Event>, r: seq<Event>)
    requires WellFormed(h, s) && r == Map(ReadEvent, s)
    ensures Rooted(r)
    ensures forall i :: 0 <= i < |r| ==> r[i].body.sequence == i + 1
    ensures forall i :: 0 <= i < |r| ==> PrevOk(r, i)
    ensures forall i :: 0 < i < |r| ==> r[i].hashPrev.Some?
  {
    forall i | 0 <= i < |r|
      ensures r[i].body.sequence == i + 1 && PrevOk(r, i)
      ensures i == 0 ==> r[i].hashPrev == None
      ensures i > 0 ==> r[i].hashPrev.Some?
    {
      ReadsLinked(h, s, i);
    }
  }

  lemma AppendOnlyLinked(h: Hasher<EventBody>, table: seq<Event>, a: string)
    requires Good(h, table) && a != ""
    ensures var r := Reads(table, a);
      && Rooted(r)
      && (forall i :: 0 <= i < |r| ==> r[i].body.sequence == i + 1)
      && (forall i :: 0 <= i < |r| ==> PrevOk(r, i))
      && (forall i :: 0 < i < |r| ==> r[i].hashPrev.Some?)
  {
    StreamIsInsertionOrder(h, table, a);
    ReadsOfWellFormed(h, Stream(table, a), Reads(table, a));
  }

  /**
   The verifier accepts the first `n` events of an append-only stream exactly when each of
   those rows reads back faithfully, or is a hash collision with what is read back.
   */
  lemma AppendOnlyAccepted(h: Hasher<EventBody>, table: seq<Event>, a: string, n: nat)
    requires Good(h, table) && a != "" && n <= |Reads(table, a)|
    ensures var s := Stream(table, a);
      Accepted(h, Reads(table, a)[..n]) <==>
        forall i :: 0 <= i < n ==> Faithful(s[i]) || Collides(h, s[i], ReadEvent(s[i]))
  {
    StreamIsInsertionOrder(h, table, a);
    AppendOnlyLinked(h, table, a);
    var s, r := Stream(table, a), Reads(table, a)[..n];
    forall i | 0 <= i < n
      ensures SelfOk(h, r[i]) <==> Faithful(s[i]) || Collides(h, s[i], ReadEvent(s[i]))
      ensures PrevOk(r, i)
    {
      ReadsLinked(h, s, i);
      ReadBackRow(h, s[i]);
      assert PrevOk(Reads(table, a), i);
    }
  }
}
