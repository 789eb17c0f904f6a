/** The event database: contiguous streams, replay and conflict, consumer cursors and pruning. */
module EventStore {
  import opened Outcomes
  import Traffic

  /** The decoded content of an event; `Opaque` is any payload that is not a traffic snapshot. */
  datatype Payload = TrafficPayload(value: Traffic.Snapshot) | Opaque(text: string)

  datatype Kind = TrafficSnapshotKind | OtherKind(name: string)

  datatype Event = Event(sequence: nat, id: string, kind: Kind, observedAt: int, payload: Payload)

  datatype Stream = Stream(node: string, id: string)

  /** A row of the events table; `event` is what event_json encodes. */
  datatype Row = Row(rowId: nat, stream: Stream, event: Event, receivedAt: int)

  /** The four standard consumers, and the consumers of feature plugins. */
  datatype Consumer = TrafficConsumer | PolicyConsumer | AccessConsumer | NetworkConsumer | FeatureConsumer(id: string)

  /** A row of the consumer_cursors table. */
  datatype Cursor = Cursor(last: nat, failures: nat, failedAt: Option<nat>, retryAfter: Option<int>)

  /** `nextRow` exceeds every row ID ever handed out. */
  datatype Db = Db(streams: map<Stream, nat>, rows: seq<Row>, nextRow: nat, cursors: map<Consumer, Cursor>)

  datatype Batch = Batch(first: nat, last: nat, events: seq<Event>)

  /** An event a center plugin asks to publish. */
  datatype Published = Published(sourceId: string, node: string, kind: Kind, observedAt: int, payload: Payload)

  predicate ValidBatch(batch: Batch) {
    && batch.events != []
    && batch.first >= 1
    && batch.last == batch.first + |batch.events| - 1
    && forall i | 0 <= i < |batch.events| :: batch.events[i].sequence == batch.first + i
  }

  // ---------------------------------------------------------------------------------------------
  // Statements
  // ---------------------------------------------------------------------------------------------

  /** Some live row has the event's ID, or its place in the stream. */
  predicate Clashes(rows: seq<Row>, stream: Stream, event: Event) {
    exists row | row in rows :: row.event.id == event.id || (row.stream == stream && row.event.sequence == event.sequence)
  }

  function FindPlace(rows: seq<Row>, stream: Stream, sequence: nat): (found: Option<Row>)
    ensures found.Some? ==> found.value in rows && found.value.stream == stream && found.value.event.sequence == sequence
    ensures found.None? ==> forall row | row in rows :: !(row.stream == stream && row.event.sequence == sequence)
  {
    if rows == [] then None
    else
      var last := rows[|rows| - 1];
      if last.stream == stream && last.event.sequence == sequence then Some(last)
      else FindPlace(rows[..|rows| - 1], stream, sequence)
  }

  function FindId(rows: seq<Row>, id: string): (found: Option<Row>)
    ensures found.Some? ==> found.value in rows && found.value.event.id == id
    ensures found.None? ==> forall row | row in rows :: row.event.id != id
  {
    if rows == [] then None
    else
      var last := rows[|rows| - 1];
      if last.event.id == id then Some(last) else FindId(rows[..|rows| - 1], id)
  }

  function Insert(db: Db, stream: Stream, event: Event, receivedAt: int): Db {
    db.(rows := db.rows + [Row(db.nextRow, stream, event, receivedAt)], nextRow := db.nextRow + 1)
  }

  /** The stream's cursor, 0 for a stream without a row. */
  function Highest(db: Db, stream: Stream): nat {
    if stream in db.streams then db.streams[stream] else 0
  }

  // ---------------------------------------------------------------------------------------------
  // Transactions
  // ---------------------------------------------------------------------------------------------

  function IngestEvent(db: Db, stream: Stream, event: Event, receivedAt: int, allowPrunedReplay: bool): Result<Db> {
    if !Clashes(db.rows, stream, event) then Ok(Insert(db, stream, event, receivedAt))
    else
      match FindPlace(db.rows, stream, event.sequence)
      case None => if allowPrunedReplay then Ok(db) else Err(Conflict)
      case Some(existing) => if existing.event == event then Ok(db) else Err(Conflict)
  }

  function IngestAll(db: Db, stream: Stream, events: seq<Event>, receivedAt: int, highest: nat): Result<Db> {
    if events == [] then Ok(db)
    else
      var last := events[|events| - 1];
      match IngestAll(db, stream, events[..|events| - 1], receivedAt, highest)
      case Err(error) => Err(error)
      case Ok(before) => IngestEvent(before, stream, last, receivedAt, last.sequence <= highest)
  }

  function Begun(db: Db, stream: Stream): Db {
    if stream in db.streams then db else db.(streams := db.streams[stream := 0])
  }

  function AfterIngest(db: Db, stream: Stream, batch: Batch, receivedAt: int): (Db, Result<nat>) {
    var highest := Highest(db, stream);
    if !ValidBatch(batch) then (db, Err(Invalid))
    else if batch.first > highest + 1 then (db, Err(Gap))
    else
      match IngestAll(Begun(db, stream), stream, batch.events, receivedAt, highest)
      case Err(error) => (db, Err(error))
      case Ok(after) =>
        if batch.last > highest then (after.(streams := after.streams[stream := batch.last]), Ok(batch.last))
        else (after, Ok(highest))
  }

  function PluginStream(plugin: string, node: string): Stream {
    Stream(node, "relayward.center-plugin.stream.v1\0" + plugin)
  }

  function PluginEventId(plugin: string, sourceId: string): string {
    "relayward.center-plugin.event.v1\0" + plugin + "\0" + sourceId
  }

  function PublishedEvent(plugin: string, source: Published, sequence: nat): Event {
    Event(sequence, PluginEventId(plugin, source.sourceId), source.kind, source.observedAt, source.payload)
  }

  /** `maximum` is the largest sequence the event format can number. */
  function PublishEvent(db: Db, plugin: string, source: Published, receivedAt: int, maximum: nat): Result<Db> {
    var stream := PluginStream(plugin, source.node);
    match FindId(db.rows, PluginEventId(plugin, source.sourceId))
    case Some(existing) =>
      if existing.stream == stream && existing.event == PublishedEvent(plugin, source, existing.event.sequence)
      then Ok(db) else Err(Conflict)
    case None =>
      var highest := Highest(db, stream);
      if highest >= maximum then Err(Exhausted)
      else
        var event := PublishedEvent(plugin, source, highest + 1);
        if Clashes(db.rows, stream, event) then Err(Constraint)
        else
          var inserted := Insert(db, stream, event, receivedAt);
          Ok(inserted.(streams := inserted.streams[stream := highest + 1]))
  }

  function PublishAll(db: Db, plugin: string, sources: seq<Published>, receivedAt: int, maximum: nat): Result<Db> {
    if sources == [] then Ok(db)
    else
      match PublishAll(db, plugin, sources[..|sources| - 1], receivedAt, maximum)
      case Err(error) => Err(error)
      case Ok(before) => PublishEvent(before, plugin, sources[|sources| - 1], receivedAt, maximum)
  }

  /** The rows a consumer whose cursor stands at `last` has not acknowledged. */
  function Unread(rows: seq<Row>, last: nat): seq<Row> {
    if rows == [] then []
    else
      var back := rows[|rows| - 1];
      Unread(rows[..|rows| - 1], last) + if back.rowId > last then [back] else []
  }

  /** The cursor row of a consumer, or the one EnsureConsumer would insert. */
  function CursorOf(db: Db, consumer: Consumer): Cursor {
    if consumer in db.cursors then db.cursors[consumer] else Cursor(0, 0, None, None)
  }

  function LastOf(db: Db, consumer: Consumer): nat {
    if consumer in db.cursors then db.cursors[consumer].last else 0
  }

  function BatchFor(db: Db, consumer: Consumer, limit: nat): seq<Row> {
    var unread := Unread(db.rows, LastOf(db, consumer));
    if limit < |unread| then unread[..limit] else unread
  }

  function AfterEnsure(db: Db, consumer: Consumer): Db {
    if consumer in db.cursors then db else db.(cursors := db.cursors[consumer := Cursor(0, 0, None, None)])
  }

  function AfterAdvance(db: Db, consumer: Consumer, rowId: nat): Db {
    if consumer in db.cursors && rowId < db.cursors[consumer].last then db
    else db.(cursors := db.cursors[consumer := Cursor(rowId, 0, None, None)])
  }

  function AfterFailure(db: Db, consumer: Consumer, rowId: nat, retryAt: int): Db {
    var cursor := if consumer in db.cursors then db.cursors[consumer] else Cursor(0, 0, None, None);
    db.(cursors := db.cursors[consumer := Cursor(cursor.last, cursor.failures + 1, Some(rowId), Some(retryAt))])
  }

  /** The rows that survive deleting those at or below `minimum` received before `cutoff`. */
  function Surviving(rows: seq<Row>, minimum: nat, cutoff: int): (kept: seq<Row>)
    ensures forall row :: row in kept <==> row in rows && !(row.rowId <= minimum && row.receivedAt < cutoff)
  {
    if rows == [] then []
    else
      var last := rows[|rows| - 1];
      Surviving(rows[..|rows| - 1], minimum, cutoff)
      + if last.rowId <= minimum && last.receivedAt < cutoff then [] else [last]
  }

  function AfterPrune(db: Db, minimum: nat, cutoff: int): Db {
    db.(rows := Surviving(db.rows, minimum, cutoff))
  }

  // ---------------------------------------------------------------------------------------------
  // The store
  // ---------------------------------------------------------------------------------------------

  class Store {
    var db: Db

    constructor ()
      ensures db == Db(map[], [], 1, map[])
    {
      db := Db(map[], [], 1, map[]);
    }

    method Ingest(node: string, streamId: string, batch: Batch, receivedAt: int) returns (result: Result<nat>)
      modifies this
      ensures (db, result) == AfterIngest(old(db), Stream(node, streamId), batch, receivedAt)
    {
      hide IngestAll, IngestEvent;
      if !ValidBatch(batch) {
        return Err(Invalid);
      }
      var stream := Stream(node, streamId);
      var transaction := db;
      var highest := 0;
      if stream !in transaction.streams {
        if batch.first != 1 {
          return Err(Gap);
        }
        transaction := transaction.(streams := transaction.streams[stream := 0]);
      } else {
        highest := transaction.streams[stream];
      }
      if batch.first > highest + 1 {
        return Err(Gap);
      }
      ghost var begun := transaction;
      IngestNothing(begun, stream, batch.events, receivedAt, highest);
      var index := 0;
      while index < |batch.events|
        invariant 0 <= index <= |batch.events| && db == old(db) && begun == Begun(db, stream)
        invariant IngestAll(begun, stream, batch.events[..index], receivedAt, highest) == Ok(transaction)
      {
        var event := batch.events[index];
        IngestOneMore(begun, stream, batch.events, index, receivedAt, highest);
        var step := IngestEvent(transaction, stream, event, receivedAt, event.sequence <= highest);
        if step.Err? {
          FailsEarly(begun, stream, batch.events, index + 1, receivedAt, highest);
          return Err(step.error);
        }
        transaction := step.value;
        index := index + 1;
      }
      assert batch.events[..index] == batch.events;
      if batch.last > highest {
        highest := batch.last;
        transaction := transaction.(streams := transaction.streams[stream := highest]);
      }
      db := transaction;
      return Ok(highest);
    }

    /** Publishes a whole request, or nothing of it. */
    method PublishPluginEvents(plugin: string, sources: seq<Published>, receivedAt: int, maximum: nat)
      returns (error: Option<Error>)
      modifies this
      ensures match PublishAll(old(db), plugin, sources, receivedAt, maximum)
              case Ok(after) => error == None && db == after
              case Err(reason) => error == Some(reason) && db == old(db)
    {
      var transaction := db;
      var highestByNode: map<string, nat> := map[];
      for index := 0 to |sources|
        invariant db == old(db)
        invariant PublishAll(db, plugin, sources[..index], receivedAt, maximum) == Ok(transaction)
        invariant Remembers(highestByNode, transaction, plugin)
      {
        assert sources[..index + 1][..index] == sources[..index];
        var step;
        step, highestByNode := PublishOne(transaction, highestByNode, plugin, sources[index], receivedAt, maximum);
        if step.Err? {
          PublishingFailsEarly(db, plugin, sources, index + 1, receivedAt, maximum);
          return Some(step.error);
        }
        transaction := step.value;
      }
      assert sources[..|sources|] == sources;
      db := transaction;
      return None;
    }
  }

  /** The cursors counted in memory during one request are the stored ones. */
  ghost predicate Remembers(highestByNode: map<string, nat>, db: Db, plugin: string) {
    forall node | node in highestByNode ::
      PluginStream(plugin, node) in db.streams && db.streams[PluginStream(plugin, node)] == highestByNode[node]
  }

  method PublishOne(db: Db, highestByNode: map<string, nat>, plugin: string, source: Published, receivedAt: int, maximum: nat)
    returns (step: Result<Db>, remembered: map<string, nat>)
    requires Remembers(highestByNode, db, plugin)
    ensures step == PublishEvent(db, plugin, source, receivedAt, maximum)
    ensures step.Ok? ==> Remembers(remembered, step.value, plugin)
  {
    remembered := highestByNode;
    var stream := PluginStream(plugin, source.node);
    var found := FindId(db.rows, PluginEventId(plugin, source.sourceId));
    if found.Some? {
      var existing := found.value;
      if existing.stream != stream || existing.event.kind != source.kind
         || existing.event.observedAt != source.observedAt || existing.event.payload != source.payload {
        return Err(Conflict), remembered;
      }
      return Ok(db), remembered;
    }
    var highest := 0;
    if source.node in highestByNode {
      highest := highestByNode[source.node];
    } else if stream in db.streams {
      highest := db.streams[stream];
    }
    if highest >= maximum {
      return Err(Exhausted), remembered;
    }
    highest := highest + 1;
    var event := PublishedEvent(plugin, source, highest);
    if Clashes(db.rows, stream, event) {
      return Err(Constraint), remembered;
    }
    var inserted := Insert(db, stream, event, receivedAt);
    step := Ok(inserted.(streams := inserted.streams[stream := highest]));
    remembered := remembered[source.node := highest];
  }

  lemma {:induction false} PublishingFailsEarly(db: Db, plugin: string, sources: seq<Published>, index: nat, receivedAt: int,
                                                maximum: nat)
    requires index <= |sources| && PublishAll(db, plugin, sources[..index], receivedAt, maximum).Err?
    ensures PublishAll(db, plugin, sources, receivedAt, maximum)
         == PublishAll(db, plugin, sources[..index], receivedAt, maximum)
  {
    if index == |sources| {
      assert sources[..index] == sources;
    } else {
      assert sources[..|sources| - 1][..index] == sources[..index];
      PublishingFailsEarly(db, plugin, sources[..|sources| - 1], index, receivedAt, maximum);
    }
  }

  lemma IngestNothing(db: Db, stream: Stream, events: seq<Event>, receivedAt: int, highest: nat)
    ensures IngestAll(db, stream, events[..0], receivedAt, highest) == Ok(db)
  {
  }

  lemma IngestOneMore(db: Db, stream: Stream, events: seq<Event>, index: nat, receivedAt: int, highest: nat)
    requires index < |events| && IngestAll(db, stream, events[..index], receivedAt, highest).Ok?
    ensures IngestAll(db, stream, events[..index + 1], receivedAt, highest)
         == IngestEvent(IngestAll(db, stream, events[..index], receivedAt, highest).value, stream, events[index], receivedAt,
                        events[index].sequence <= highest)
  {
    hide IngestEvent;
    assert events[..index + 1][..index] == events[..index];
  }

  /** The first failing event decides the outcome of the whole batch. */
  lemma {:induction false} FailsEarly(db: Db, stream: Stream, events: seq<Event>, index: nat, receivedAt: int, highest: nat)
    requires index <= |events|
    requires IngestAll(db, stream, events[..index], receivedAt, highest).Err?
    ensures IngestAll(db, stream, events, receivedAt, highest) == IngestAll(db, stream, events[..index], receivedAt, highest)
  {
    if index == |events| {
      assert events[..index] == events;
    } else {
      assert events[..|events| - 1][..index] == events[..index];
      FailsEarly(db, stream, events[..|events| - 1], index, receivedAt, highest);
    }
  }

}
