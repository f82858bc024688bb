/**
 Deterministic replay: a fold over an aggregate's events, started from a snapshot.

 `get_snapshot` returns the stored state itself, while `replay_aggregate` reads the keys
 `state` and `version` off what it returns. So a snapshot means what replay needs exactly
 when the stored state is an envelope with those two keys; this module says what replay
 computes for every stored state.
 */
module Replay {
  import opened Options
  import opened EventTable
  import opened StoreEffects

  type Apply = (Json, Object) -> Json

  /** `for event in events: state = apply_fn(state, event.data)` */
  function Fold(apply: Apply, state: Json, events: seq<Event>): Json {
    if events == [] then state
    else apply(Fold(apply, state, events[..|events| - 1]), events[|events| - 1].body.data)
  }

  /** `d.get(key)` */
  function Get(d: Object, key: string): Json {
    if key in d then d[key] else JNull
  }

  /** Replay starts here. `None`: adding 1 to a version that is no number raises. */
  datatype Start = Start(state: Json, sequence: int)

  function StartOf(snapshot: Option<Object>): Option<Start> {
    if snapshot.None? || snapshot.value == map[] then Some(Start(JNull, 0))
    else
      var d := snapshot.value;
      if "version" !in d then Some(Start(Get(d, "state"), 0))
      else match d["version"]
        case JInt(n) => Some(Start(Get(d, "state"), n))
        case JBool(b) => Some(Start(Get(d, "state"), if b then 1 else 0))
        case _ => None
  }

  /** Replay of a whole stream from what `get_snapshot` returned. */
  function Replayed(apply: Apply, snapshot: Option<Object>, events: seq<Event>): Option<Json> {
    match StartOf(snapshot)
    case None => None
    case Some(s) => Some(Fold(apply, s.state, FromSequence(events, s.sequence + 1)))
  }

  predicate Numbered(events: seq<Event>) {
    forall i :: 0 <= i < |events| ==> events[i].body.sequence == i + 1
  }

  lemma {:induction false} FoldConcat(apply: Apply, state: Json, a: seq<Event>, b: seq<Event>)
    ensures Fold(apply, state, a + b) == Fold(apply, Fold(apply, state, a), b)
  {
    if b == [] {
      assert a + b == a;
    } else {
      var n := |b| - 1;
      assert (a + b)[..|a + b| - 1] == a + b[..n];
      FoldConcat(apply, state, a, b[..n]);
    }
  }

  /** The shape of stored state that replay reads. */
  function Envelope(state: Json, version: int): Object {
    map["state" := state, "version" := JInt(version)]
  }

  lemma StartOfEnvelope(state: Json, version: int)
    ensures StartOf(Some(Envelope(state, version))) == Some(Start(state, version))
  {
    var d := Envelope(state, version);
    assert "version" in d && d["version"] == JInt(version);
    assert Get(d, "state") == state;
  }

  lemma FoldSuffix(apply: Apply, events: seq<Event>, n: nat)
    requires n <= |events|
    ensures Fold(apply, Fold(apply, JNull, events[..n]), events[n..]) == Fold(apply, JNull, events)
  {
    FoldConcat(apply, JNull, events[..n], events[n..]);
    assert events == events[..n] + events[n..];
  }

  /**
   Replay from an envelope over the first `version` events gives the full replay, for every
   apply function and every stream.
   */
  lemma EnvelopeReplay(apply: Apply, events: seq<Event>, version: nat)
    requires Numbered(events) && version <= |events|
    ensures Replayed(apply, Some(Envelope(Fold(apply, JNull, events[..version]), version)), events) ==
            Some(Fold(apply, JNull, events))
  {
    StartOfEnvelope(Fold(apply, JNull, events[..version]), version);
    NumberedSuffix(events, version);
    FoldSuffix(apply, events, version);
  }

  lemma NumberedSuffix(events: seq<Event>, n: nat)
    requires Numbered(events) && n <= |events|
    ensures FromSequence(events, n + 1) == events[n..]
  {
    FromSequenceIsSuffix(events, n + 1);
  }

  /** Without either key the snapshot is ignored: replay falls back to the whole stream. */
  lemma BareStateReplay(apply: Apply, snapshot: Object, events: seq<Event>)
    requires Numbered(events)
    requires "state" !in snapshot && "version" !in snapshot
    ensures Replayed(apply, Some(snapshot), events) == Some(Fold(apply, JNull, events))
  {
    FromSequenceIsSuffix(events, 1);
  }

  /** All but the first `v` events. */
  function Skip(events: seq<Event>, v: int): seq<Event> {
    if v <= 0 then events else if v >= |events| then [] else events[v..]
  }

  /** The number that a stored state gives as its version; `true` counts as 1, and none as 0. */
  ghost predicate HasVersion(d: Object, v: int) {
    if "version" !in d then v == 0
    else d["version"] == JInt(v) || (v == 1 && d["version"] == JBool(true)) || (v == 0 && d["version"] == JBool(false))
  }

  /**
   Replay of a numbered stream from a stored state, whatever its shape, starts from the value of
   the key `state`, if there is one, and skips as many events as its version says.
   */
  lemma ReplayFromStored(apply: Apply, d: Object, v: int, events: seq<Event>)
    requires Numbered(events) && HasVersion(d, v)
    ensures Replayed(apply, Some(d), events) ==
            Some(Fold(apply, if "state" in d then d["state"] else JNull, Skip(events, v)))
  {
    StartFromStored(d, v);
    ReplayedFrom(apply, Some(d), Start(if "state" in d then d["state"] else JNull, v), events);
  }

  lemma StartFromStored(d: Object, v: int)
    requires HasVersion(d, v)
    ensures StartOf(Some(d)) == Some(Start(if "state" in d then d["state"] else JNull, v))
  {
    StartOfStored(d);
  }

  lemma ReplayedFrom(apply: Apply, snapshot: Option<Object>, start: Start, events: seq<Event>)
    requires Numbered(events) && StartOf(snapshot) == Some(start)
    ensures Replayed(apply, snapshot, events) == Some(Fold(apply, start.state, Skip(events, start.sequence)))
  {
    SkippedEvents(events, start.sequence);
  }

  /** A version that is no number makes it raise. */
  lemma NoNumberRaises(apply: Apply, d: Object, events: seq<Event>)
    ensures Replayed(apply, Some(d), events).None? <==> "version" in d && !d["version"].JInt? && !d["version"].JBool?
  {
    StartOfStored(d);
  }

  lemma StartOfStored(d: Object)
    ensures var state := if "state" in d then d["state"] else JNull;
      StartOf(Some(d)) ==
      if "version" !in d then Some(Start(state, 0))
      else if d["version"].JInt? then Some(Start(state, d["version"].n))
      else if d["version"].JBool? then Some(Start(state, if d["version"].b then 1 else 0))
      else None
  {
  }

  lemma SkippedEvents(events: seq<Event>, v: int)
    requires Numbered(events)
    ensures FromSequence(events, v + 1) == Skip(events, v)
  {
    FromSequenceIsSuffix(events, v + 1);
  }

  /** A snapshot that replay cannot tell from none: no state, and no events skipped. */
  predicate Neutral(snapshot: Object, events: seq<Event>) {
    var s := StartOf(Some(snapshot));
    s.Some? && s.value.state == JNull && (s.value.sequence <= 0 || events == [])
  }

  /** Two apply functions that tell any two replays apart. */
  const KEEP: Apply := (s: Json, d: Object) => s

  const WRAP: Apply := (s: Json, d: Object) => JList([s])

  lemma {:induction false} FoldKeep(state: Json, events: seq<Event>)
    ensures Fold(KEEP, state, events) == state
  {
    if events != [] {
      FoldKeep(state, events[..|events| - 1]);
    }
  }

  function Depth(j: Json): nat {
    if j.JList? && |j.items| == 1 then 1 + Depth(j.items[0]) else 0
  }

  lemma {:induction false} FoldWrap(events: seq<Event>)
    ensures Depth(Fold(WRAP, JNull, events)) == |events|
  {
    if events != [] {
      FoldWrap(events[..|events| - 1]);
    }
  }

  /**
   Exactly the neutral snapshots leave replay meaning "apply every event" for all apply
   functions. Any other bare state that happens to hold one of the two keys changes the
   result for some apply function, or makes replay raise.
   */
  lemma ReplayTransparentIff(snapshot: Object, events: seq<Event>)
    requires Numbered(events)
    ensures (forall apply: Apply :: Replayed(apply, Some(snapshot), events) == Some(Fold(apply, JNull, events)))
            <==> Neutral(snapshot, events)
  {
    var start := StartOf(Some(snapshot));
    if start.Some? {
      FromSequenceIsSuffix(events, start.value.sequence + 1);
      if forall apply: Apply :: Replayed(apply, Some(snapshot), events) == Some(Fold(apply, JNull, events)) {
        var tail := FromSequence(events, start.value.sequence + 1);
        assert Replayed(KEEP, Some(snapshot), events) == Some(Fold(KEEP, JNull, events));
        FoldKeep(start.value.state, tail);
        FoldKeep(JNull, events);
        assert start.value.state == JNull;
        assert Replayed(WRAP, Some(snapshot), events) == Some(Fold(WRAP, JNull, events));
        FoldWrap(tail);
        FoldWrap(events);
        assert |tail| == |events|;
      }
    } else {
      assert Replayed(KEEP, Some(snapshot), events) == None;
    }
  }
}
