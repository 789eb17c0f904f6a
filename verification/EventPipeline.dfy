/** Consumers, their effects and the pruner over one event database, interleaved step by step. */
module EventPipeline {
  import opened Outcomes
  import opened EventStore
  import opened EventStreams
  import Traffic

  /** The consumers pruning waits for, in the order it reads their cursors. */
  const STANDARD: seq<Consumer> := [TrafficConsumer, PolicyConsumer, AccessConsumer, NetworkConsumer]

  predicate IsStandard(consumer: Consumer) {
    !consumer.FeatureConsumer?
  }

  /** Rows a consumer has read and not yet acknowledged; the first `handled` of them were processed. */
  datatype Flight = Flight(batch: seq<Row>, handled: nat)

  /** A pruning run reads the cursors one by one and deletes afterwards. */
  datatype Pruner =
    | Resting
    | Reading(cutoff: int, unread: seq<Consumer>, minimum: Option<nat>)

  /** The two databases, what the processor and the pruner hold in memory, and for each consumer the row
      IDs it ever processed. */
  datatype System = System(history: History, traffic: Traffic.Table, flights: map<Consumer, Flight>, pruner: Pruner,
                           processed: map<Consumer, set<nat>>)

  datatype Act =
    | Arrive(step: Step)
    | Ensure(consumer: Consumer)
    | Read(consumer: Consumer, limit: nat)
    | Handle(consumer: Consumer, succeeds: bool, retryAt: int)
    | Advance(consumer: Consumer)
    | Finish(consumer: Consumer)
    | Crash
    | BeginPrune(cutoff: int)
    | ReadCursor
    | Delete

  function Report(row: Row, value: Traffic.Snapshot): Traffic.Report {
    Traffic.Report(
      Traffic.Source(row.stream.node, row.stream.id, row.event.sequence, row.event.observedAt, row.receivedAt), value)
  }

  /** The traffic consumer's effect of one row. */
  function Effect(rules: Traffic.Rules, table: Traffic.Table, row: Row): Result<Traffic.Table> {
    if row.event.kind != TrafficSnapshotKind then Ok(table)
    else
      match row.event.payload
      case Opaque(_) => Err(Invalid)
      case TrafficPayload(value) => Traffic.Apply(rules, table, Report(row, value))
  }

  function Effects(rules: Traffic.Rules, rows: seq<Row>): Result<Traffic.Table> {
    if rows == [] then Ok(map[])
    else
      match Effects(rules, rows[..|rows| - 1])
      case Err(error) => Err(error)
      case Ok(before) => Effect(rules, before, rows[|rows| - 1])
  }

  function Processed(system: System, consumer: Consumer): set<nat> {
    if consumer in system.processed then system.processed[consumer] else {}
  }

  function WithDb(system: System, db: Db): System {
    system.(history := system.history.(db := db))
  }

  function Least(minimum: Option<nat>, last: nat): nat {
    match minimum
    case None => last
    case Some(least) => if last < least then last else least
  }

  /** One atomic step; a step whose guard does not hold changes nothing. */
  function Do(rules: Traffic.Rules, system: System, act: Act): System {
    var db := system.history.db;
    match act
    case Arrive(step) =>
      if step.Pruning? then system else system.(history := EventStreams.Next(system.history, step))
    case Ensure(consumer) => WithDb(system, AfterEnsure(db, consumer))
    case Read(consumer, limit) =>
      if consumer in system.flights then system
      else system.(flights := system.flights[consumer := Flight(BatchFor(db, consumer, limit), 0)])
    case Handle(consumer, succeeds, retryAt) => Handled(rules, system, consumer, succeeds, retryAt)
    case Advance(consumer) =>
      if consumer !in system.flights || system.flights[consumer].handled == 0
         || system.flights[consumer].handled > |system.flights[consumer].batch| then system
      else Acknowledged(system, consumer)
    case Finish(consumer) => system.(flights := system.flights - {consumer})
    case Crash => system.(flights := map[], pruner := Resting)
    case BeginPrune(cutoff) =>
      if system.pruner.Resting? then system.(pruner := Reading(cutoff, STANDARD, None)) else system
    case ReadCursor =>
      if system.pruner.Resting? || system.pruner.unread == [] then system
      else
        var consumer := system.pruner.unread[0];
        if consumer !in db.cursors then system.(pruner := Resting)
        else
          var minimum := Least(system.pruner.minimum, db.cursors[consumer].last);
          system.(pruner := system.pruner.(unread := system.pruner.unread[1..], minimum := Some(minimum)))
    case Delete =>
      if system.pruner.Resting? || system.pruner.unread != [] || system.pruner.minimum.None? then system
      else
        WithDb(system, AfterPrune(db, system.pruner.minimum.value, system.pruner.cutoff)).(pruner := Resting)
  }

  /** Processing the next row in flight. A standard consumer acknowledges each row before the next one; a
      feature consumer may be handed several. Only the traffic consumer's effect is modelled; of every other
      cause of failure the step says whether it strikes. */
  function Handled(rules: Traffic.Rules, system: System, consumer: Consumer, succeeds: bool, retryAt: int): System {
    if consumer !in system.flights then system
    else
      var flight := system.flights[consumer];
      if flight.handled >= |flight.batch| || (IsStandard(consumer) && flight.handled > 0) then system
      else
        var row := flight.batch[flight.handled];
        match Outcome(rules, system, consumer, row, succeeds)
        case Err(_) =>
          WithDb(system, AfterFailure(system.history.db, consumer, row.rowId, retryAt))
            .(flights := system.flights - {consumer})
        case Ok(table) => Succeeded(system, consumer, table)
  }

  /** The cursor moves to the last processed row in flight. */
  function Acknowledged(system: System, consumer: Consumer): System
    requires consumer in system.flights && 0 < system.flights[consumer].handled <= |system.flights[consumer].batch|
  {
    var flight := system.flights[consumer];
    WithDb(system, AfterAdvance(system.history.db, consumer, flight.batch[flight.handled - 1].rowId))
      .(flights := system.flights[consumer := Flight(flight.batch[flight.handled..], 0)])
  }

  function Outcome(rules: Traffic.Rules, system: System, consumer: Consumer, row: Row, succeeds: bool)
    : Result<Traffic.Table>
  {
    if !succeeds then Err(Invalid)
    else if consumer == TrafficConsumer then Effect(rules, system.traffic, row)
    else Ok(system.traffic)
  }

  function Succeeded(system: System, consumer: Consumer, table: Traffic.Table): System
    requires consumer in system.flights && system.flights[consumer].handled < |system.flights[consumer].batch|
  {
    var flight := system.flights[consumer];
    system.(traffic := table,
            flights := system.flights[consumer := Flight(flight.batch, flight.handled + 1)],
            processed := system.processed[consumer := Processed(system, consumer) + {flight.batch[flight.handled].rowId}])
  }

  const START: System := System(EMPTY, map[], map[], Resting, map[])

  function DoAll(rules: Traffic.Rules, system: System, acts: seq<Act>): System {
    if acts == [] then system
    else Do(rules, DoAll(rules, system, acts[..|acts| - 1]), acts[|acts| - 1])
  }

  // ---------------------------------------------------------------------------------------------
  // Invariant
  // ---------------------------------------------------------------------------------------------

  /** The rows at or below a cursor. */
  function Done(rows: seq<Row>, last: nat): seq<Row> {
    if rows == [] then []
    else
      var back := rows[|rows| - 1];
      Done(rows[..|rows| - 1], last) + if back.rowId > last then [] else [back]
  }

  /** Everything above the cursor is live, everything up to it was processed, and the rows in flight are
      the next ones of the log. */
  ghost predicate Tracks(system: System, consumer: Consumer) {
    var log := system.history.log;
    var last := LastOf(system.history.db, consumer);
    var unread := Unread(log, last);
    && Unread(system.history.db.rows, last) == unread
    && (forall row | row in log && row.rowId <= last :: row.rowId in Processed(system, consumer))
    && (consumer in system.flights ==>
          var flight := system.flights[consumer];
          && flight.handled <= 1
          && flight.handled <= |flight.batch|
          && flight.batch <= unread
          && (flight.handled == 1 ==> unread[0].rowId in Processed(system, consumer)))
  }

  /** Cursors and rows in flight stay below the next row ID. */
  ghost predicate Bounded(system: System) {
    && (forall consumer | consumer in system.history.db.cursors ::
          system.history.db.cursors[consumer].last < system.history.db.nextRow)
    && (forall consumer, i | consumer in system.flights && 0 <= i < |system.flights[consumer].batch| ::
          system.flights[consumer].batch[i].rowId < system.history.db.nextRow)
  }

  /** The traffic table is the fold of the log up to the cursor, or of one event more. */
  ghost predicate Folded(rules: Traffic.Rules, system: System) {
    var last := LastOf(system.history.db, TrafficConsumer);
    var done, unread := Done(system.history.log, last), Unread(system.history.log, last);
    && Effects(rules, done).Ok?
    && (|| Effects(rules, done) == Ok(system.traffic)
        || (unread != [] && Effects(rules, done + [unread[0]]) == Ok(system.traffic)))
    && (TrafficConsumer in system.flights && system.flights[TrafficConsumer].handled == 1 ==>
          unread != [] && Effects(rules, done + [unread[0]]) == Ok(system.traffic))
  }

  /** The minimum read so far is no greater than the cursors it was read from, however far they moved on. */
  ghost predicate PrunesSafely(system: System) {
    match system.pruner
    case Resting => true
    case Reading(_, unread, minimum) =>
      exists read: nat :: Covers(system.history.db, STANDARD, unread, minimum, read)
  }

  /** The first `read` of the named cursors were read and are at least `minimum`. */
  ghost predicate Covers(db: Db, names: seq<Consumer>, unread: seq<Consumer>, minimum: Option<nat>, read: nat) {
    && read <= |names|
    && unread == names[read..]
    && (minimum.None? <==> read == 0)
    && (forall i | 0 <= i < read :: minimum.Some? && minimum.value <= LastOf(db, names[i]))
  }

  ghost predicate Invariant(rules: Traffic.Rules, system: System) {
    && Traced(system.history)
    && Bounded(system)
    && (forall consumer | IsStandard(consumer) :: Tracks(system, consumer))
    && Folded(rules, system)
    && PrunesSafely(system)
  }

  // ---------------------------------------------------------------------------------------------
  // Cursors over a growing log
  // ---------------------------------------------------------------------------------------------

  lemma {:induction false} AppendSplits(rows: seq<Row>, added: seq<Row>, last: nat)
    ensures Unread(rows + added, last) == Unread(rows, last) + Unread(added, last)
    ensures Done(rows + added, last) == Done(rows, last) + Done(added, last)
  {
    if added == [] {
      assert rows + added == rows;
    } else {
      var front := added[..|added| - 1];
      assert (rows + added)[..|rows + added| - 1] == rows + front;
      AppendSplits(rows, front, last);
    }
  }

  lemma {:induction false} LaterRowsAreUnread(rows: seq<Row>, last: nat)
    requires forall i | 0 <= i < |rows| :: rows[i].rowId > last
    ensures Unread(rows, last) == rows && Done(rows, last) == []
  {
    if rows != [] {
      LaterRowsAreUnread(rows[..|rows| - 1], last);
    }
  }

  lemma {:induction false} EarlierRowsAreDone(rows: seq<Row>, last: nat)
    requires forall i | 0 <= i < |rows| :: rows[i].rowId <= last
    ensures Unread(rows, last) == [] && Done(rows, last) == rows
  {
    if rows != [] {
      EarlierRowsAreDone(rows[..|rows| - 1], last);
    }
  }

  /** Deleting rows at or below a cursor does not touch what is unread at it. */
  lemma {:induction false} SurvivingKeepsUnread(rows: seq<Row>, minimum: nat, cutoff: int, last: nat)
    requires minimum <= last
    ensures Unread(Surviving(rows, minimum, cutoff), last) == Unread(rows, last)
  {
    if rows != [] {
      var front, back := rows[..|rows| - 1], rows[|rows| - 1];
      SurvivingKeepsUnread(front, minimum, cutoff, last);
      var kept := Surviving(front, minimum, cutoff);
      AppendSplits(kept, [back], last);
      assert kept + [] == kept;
    }
  }

  lemma {:induction false} OrderedSplits(rows: seq<Row>, last: nat)
    requires Ordered(rows)
    ensures rows == Done(rows, last) + Unread(rows, last)
    ensures forall i | 0 <= i < |Done(rows, last)| :: Done(rows, last)[i].rowId <= last
    ensures forall i | 0 <= i < |Unread(rows, last)| :: Unread(rows, last)[i].rowId > last
  {
    if rows != [] {
      var front, back := rows[..|rows| - 1], rows[|rows| - 1];
      if back.rowId <= last {
        EarlierRowsAreDone(rows, last);
      } else {
        OrderedSplits(front, last);
        assert rows == front + [back];
      }
    }
  }

  /** Acknowledging the first unread row moves exactly that row from unread to done. */
  lemma AcknowledgeFirst(rows: seq<Row>, last: nat)
    requires Ordered(rows) && Unread(rows, last) != []
    ensures var unread := Unread(rows, last);
      && unread[0].rowId > last
      && Unread(rows, unread[0].rowId) == unread[1..]
      && Done(rows, unread[0].rowId) == Done(rows, last) + [unread[0]]
  {
    OrderedSplits(rows, last);
    var done, unread := Done(rows, last), Unread(rows, last);
    var first, rest := unread[0], unread[1..];
    var front := done + [first];
    assert rows == front + rest;
    forall i | 0 <= i < |rest|
      ensures rest[i].rowId > first.rowId
    {
      assert rest[i] == rows[|front| + i] && first == rows[|done|];
    }
    hide Ordered, Done, Unread;
    AppendSplits(front, rest, first.rowId);
    EarlierRowsAreDone(front, first.rowId);
    LaterRowsAreUnread(rest, first.rowId);
    assert front + [] == front;
  }

  lemma {:induction false} DoneElements(rows: seq<Row>, last: nat)
    ensures forall row :: row in Done(rows, last) <==> row in rows && row.rowId <= last
  {
    if rows != [] {
      DoneElements(rows[..|rows| - 1], last);
      assert rows == rows[..|rows| - 1] + [rows[|rows| - 1]];
    }
  }

  // ---------------------------------------------------------------------------------------------
  // Arrivals
  // ---------------------------------------------------------------------------------------------

  lemma ArrivalExtends(history: History, step: Step)
    requires Traced(history) && !step.Pruning?
    ensures var next := EventStreams.Next(history, step);
            && Traced(next)
            && Extends(history.db, next.db)
            && next.log == history.log + Added(history.db, next.db)
  {
    hide Traced;
    match step
    case Ingesting(stream, batch, receivedAt) => IngestingKeepsTraced(history, stream, batch, receivedAt);
    case Publishing(plugin, sources, receivedAt, maximum) =>
      PublishingKeepsTraced(history, plugin, sources, receivedAt, maximum);
      assert history.log + Added(history.db, history.db) == history.log;
  }

  /** The history grew by rows above every cursor. */
  ghost predicate Grows(history: History, next: History) {
    && history.db.nextRow >= 1
    && Extends(history.db, next.db)
    && next.log == history.log + Added(history.db, next.db)
  }

  /** New rows are unread at every cursor. */
  lemma ArrivalIsUnread(history: History, next: History, last: nat)
    requires Grows(history, next) && last < history.db.nextRow
    ensures var added := Added(history.db, next.db);
      && Unread(next.log, last) == Unread(history.log, last) + added
      && Unread(next.db.rows, last) == Unread(history.db.rows, last) + added
      && Done(next.log, last) == Done(history.log, last)
  {
    var added := Added(history.db, next.db);
    assert next.db.rows == history.db.rows + added;
    assert forall i | 0 <= i < |added| :: added[i] == next.db.rows[|history.db.rows| + i];
    hide Extends, Added;
    AppendSplits(history.log, added, last);
    AppendSplits(history.db.rows, added, last);
    LaterRowsAreUnread(added, last);
    assert Done(history.log, last) + [] == Done(history.log, last);
  }

  lemma ArrivalKeepsTracks(system: System, next: History, consumer: Consumer)
    requires Tracks(system, consumer) && Grows(system.history, next)
    requires LastOf(system.history.db, consumer) < system.history.db.nextRow
    ensures Tracks(system.(history := next), consumer)
  {
    var last := LastOf(system.history.db, consumer);
    assert LastOf(next.db, consumer) == last;
    ArrivalIsUnread(system.history, next, last);
    DoneElements(system.history.log, last);
    DoneElements(next.log, last);
    hide Grows, Done;
  }

  lemma ArrivalKeepsFolded(rules: Traffic.Rules, system: System, next: History)
    requires Folded(rules, system) && Grows(system.history, next)
    requires LastOf(system.history.db, TrafficConsumer) < system.history.db.nextRow
    ensures Folded(rules, system.(history := next))
  {
    var last := LastOf(system.history.db, TrafficConsumer);
    assert LastOf(next.db, TrafficConsumer) == last;
    ArrivalIsUnread(system.history, next, last);
    hide Grows, Done, Unread, Effects;
  }

  lemma ArrivalKeepsInvariant(rules: Traffic.Rules, system: System, step: Step)
    requires Invariant(rules, system)
    ensures Invariant(rules, Do(rules, system, Arrive(step)))
  {
    hide Traced, EventStreams.Next, Tracks, Folded, PrunesSafely;
    if !step.Pruning? {
      var next := EventStreams.Next(system.history, step);
      ArrivalExtends(system.history, step);
      RowIdsStart(system.history);
      forall consumer | IsStandard(consumer)
        ensures Tracks(system.(history := next), consumer)
      {
        ArrivalKeepsTracks(system, next, consumer);
      }
      ArrivalKeepsFolded(rules, system, next);
      KeepsPruner(system, system.(history := next));
    }
  }

  lemma RowIdsStart(history: History)
    requires Traced(history)
    ensures history.db.nextRow >= 1
  {
  }

  /** Cursors only move forward, so a minimum read earlier stays a lower bound. */
  lemma KeepsPruner(system: System, next: System)
    requires PrunesSafely(system) && next.pruner == system.pruner
    requires forall consumer :: LastOf(system.history.db, consumer) <= LastOf(next.history.db, consumer)
    ensures PrunesSafely(next)
  {
    match system.pruner
    case Resting =>
    case Reading(_, unread, minimum) =>
      var read: nat :| Covers(system.history.db, STANDARD, unread, minimum, read);
      assert Covers(next.history.db, STANDARD, unread, minimum, read);
  }

  // ---------------------------------------------------------------------------------------------
  // Steps of the processor
  // ---------------------------------------------------------------------------------------------

  lemma CursorsAreNotTraced(history: History, cursors: map<Consumer, Cursor>)
    requires Traced(history)
    ensures Traced(history.(db := history.db.(cursors := cursors)))
  {
    var next := history.(db := history.db.(cursors := cursors));
    assert forall stream :: Highest(next.db, stream) == Highest(history.db, stream);
    hide Ordered, Distinct, Stored;
  }

  lemma TracksCarriesOver(system: System, next: System, consumer: Consumer)
    requires Tracks(system, consumer)
    requires next.history.log == system.history.log && next.history.db.rows == system.history.db.rows
    requires LastOf(next.history.db, consumer) == LastOf(system.history.db, consumer)
    requires Processed(next, consumer) == Processed(system, consumer)
    requires consumer in next.flights ==>
               consumer in system.flights && next.flights[consumer] == system.flights[consumer]
    ensures Tracks(next, consumer)
  {
    hide Unread, Processed;
  }

  lemma FoldedCarriesOver(rules: Traffic.Rules, system: System, next: System)
    requires Folded(rules, system)
    requires next.history.log == system.history.log && next.traffic == system.traffic
    requires LastOf(next.history.db, TrafficConsumer) == LastOf(system.history.db, TrafficConsumer)
    requires TrafficConsumer in next.flights ==>
      TrafficConsumer in system.flights && next.flights[TrafficConsumer] == system.flights[TrafficConsumer]
    ensures Folded(rules, next)
  {
    hide Unread, Done, Effects;
  }

  /** Writing cursor rows without moving a cursor. */
  lemma TouchingCursorsKeepsInvariant(rules: Traffic.Rules, system: System, cursors: map<Consumer, Cursor>)
    requires Invariant(rules, system)
    requires var db := system.history.db.(cursors := cursors);
             forall consumer :: LastOf(db, consumer) == LastOf(system.history.db, consumer)
    requires forall consumer | consumer in cursors :: cursors[consumer].last < system.history.db.nextRow
    ensures Invariant(rules, WithDb(system, system.history.db.(cursors := cursors)))
  {
    var next := WithDb(system, system.history.db.(cursors := cursors));
    hide Traced, PrunesSafely, Tracks, Folded;
    CursorsAreNotTraced(system.history, cursors);
    KeepsPruner(system, next);
    FoldedCarriesOver(rules, system, next);
    forall consumer | IsStandard(consumer)
      ensures Tracks(next, consumer)
    {
      TracksCarriesOver(system, next, consumer);
    }
  }

  /** Forgetting rows in flight, by finishing a batch or by a crash. */
  lemma DroppingFlightsKeepsInvariant(rules: Traffic.Rules, system: System, flights: map<Consumer, Flight>)
    requires Invariant(rules, system)
    requires forall consumer | consumer in flights ::
      consumer in system.flights && flights[consumer] == system.flights[consumer]
    ensures Invariant(rules, system.(flights := flights))
  {
    var next := system.(flights := flights);
    hide Traced, PrunesSafely, Tracks, Folded;
    KeepsPruner(system, next);
    FoldedCarriesOver(rules, system, next);
    forall consumer | IsStandard(consumer)
      ensures Tracks(next, consumer)
    {
      TracksCarriesOver(system, next, consumer);
    }
  }

  lemma {:induction false} UnreadElements(rows: seq<Row>, last: nat)
    ensures forall row :: row in Unread(rows, last) ==> row in rows
  {
    if rows != [] {
      UnreadElements(rows[..|rows| - 1], last);
    }
  }

  lemma BatchIsBounded(db: Db, consumer: Consumer, limit: nat)
    requires forall row | row in db.rows :: row.rowId < db.nextRow
    ensures var batch := BatchFor(db, consumer, limit); forall i | 0 <= i < |batch| :: batch[i].rowId < db.nextRow
  {
    var batch := BatchFor(db, consumer, limit);
    UnreadElements(db.rows, LastOf(db, consumer));
    forall i | 0 <= i < |batch|
      ensures batch[i].rowId < db.nextRow
    {
      assert batch[i] == Unread(db.rows, LastOf(db, consumer))[i];
    }
  }

  lemma ReadKeepsTracks(rules: Traffic.Rules, system: System, consumer: Consumer, limit: nat, other: Consumer)
    requires Tracks(system, other) && consumer !in system.flights
    ensures Tracks(Do(rules, system, Read(consumer, limit)), other)
  {
    hide Unread, Handled;
  }

  lemma ReadKeepsInvariant(rules: Traffic.Rules, system: System, consumer: Consumer, limit: nat)
    requires Invariant(rules, system)
    ensures Invariant(rules, Do(rules, system, Read(consumer, limit)))
  {
    if consumer !in system.flights {
      var next := Do(rules, system, Read(consumer, limit));
      RowsAreBounded(system.history);
      BatchIsBounded(system.history.db, consumer, limit);
      KeepsPruner(system, next);
      hide Traced, PrunesSafely, Unread, Tracks, Effects, Done, BatchFor, Handled;
      forall other | IsStandard(other)
        ensures Tracks(next, other)
      {
        ReadKeepsTracks(rules, system, consumer, limit, other);
      }
    }
  }

  lemma RowsAreBounded(history: History)
    requires Traced(history)
    ensures Ordered(history.log) && Ordered(history.db.rows)
    ensures forall row | row in history.db.rows :: row.rowId < history.db.nextRow
  {
    hide Ordered, Distinct, Stored;
  }

  /** The traffic effect of the row just applied changes nothing. */
  lemma EffectIsIdempotent(rules: Traffic.Rules, table: Traffic.Table, row: Row)
    requires Effect(rules, table, row).Ok?
    ensures var after := Effect(rules, table, row).value; Effect(rules, after, row) == Ok(after)
  {
    if row.event.kind == TrafficSnapshotKind && row.event.payload.TrafficPayload? {
      Traffic.ApplyIsIdempotent(rules, table, Report(row, row.event.payload.value));
    }
  }

  /** The effect of a traffic event is that of its payload, sent by the node and stream of its row, at the place and the
      times of the event; other events have no effect, and one that cannot be decoded fails. */
  lemma EffectAppliesTheEvent(rules: Traffic.Rules, table: Traffic.Table, row: Row) returns (report: Traffic.Report)
    ensures row.event.kind == TrafficSnapshotKind && row.event.payload.TrafficPayload? ==>
      && Effect(rules, table, row) == Traffic.Apply(rules, table, report)
      && report.snapshot == row.event.payload.value
      && report.source.node == row.stream.node && report.source.stream == row.stream.id
      && report.source.sequence == row.event.sequence
      && report.source.observedAt == row.event.observedAt && report.source.receivedAt == row.receivedAt
    ensures row.event.kind != TrafficSnapshotKind ==> Effect(rules, table, row) == Ok(table)
    ensures row.event.kind == TrafficSnapshotKind && row.event.payload.Opaque? ==> Effect(rules, table, row).Err?
  {
    report := Report(row, if row.event.payload.TrafficPayload? then row.event.payload.value
                          else Traffic.Snapshot(Traffic.Key("", ""), 0, None, Traffic.Counters(0, 0, 0)));
  }

  /** Applying the first unread row, for the first time or again after a crash, leaves the fold that
      includes it. */
  lemma EffectOfFirstUnread(rules: Traffic.Rules, system: System)
    requires Folded(rules, system)
    requires var unread := Unread(system.history.log, LastOf(system.history.db, TrafficConsumer));
      unread != [] && Effect(rules, system.traffic, unread[0]).Ok?
    ensures var last := LastOf(system.history.db, TrafficConsumer);
            var done, unread := Done(system.history.log, last), Unread(system.history.log, last);
            Effects(rules, done + [unread[0]]) == Effect(rules, system.traffic, unread[0])
  {
    var last := LastOf(system.history.db, TrafficConsumer);
    var done, first := Done(system.history.log, last), Unread(system.history.log, last)[0];
    assert (done + [first])[..|done + [first]| - 1] == done;
    hide Done, Unread;
    var before := Effects(rules, done).value;
    assert Effects(rules, done + [first]) == Effect(rules, before, first);
    if system.traffic != before {
      EffectIsIdempotent(rules, before, first);
    }
  }

  /** Row `flight.batch[flight.handled]` was processed. */
  lemma SuccessKeepsTracks(system: System, consumer: Consumer, table: Traffic.Table, other: Consumer)
    requires Tracks(system, other) && consumer in system.flights
    requires var flight := system.flights[consumer];
      flight.handled < |flight.batch| && (IsStandard(consumer) ==> flight.handled == 0)
    requires IsStandard(other)
    ensures Tracks(Succeeded(system, consumer, table), other)
  {
    hide Unread;
  }

  lemma SuccessKeepsFolded(rules: Traffic.Rules, system: System, consumer: Consumer, table: Traffic.Table)
    requires Folded(rules, system) && Tracks(system, TrafficConsumer) && consumer in system.flights
    requires var flight := system.flights[consumer];
      && flight.handled < |flight.batch| && (IsStandard(consumer) ==> flight.handled == 0)
      && if consumer == TrafficConsumer then Effect(rules, system.traffic, flight.batch[flight.handled]) == Ok(table)
         else table == system.traffic
    ensures Folded(rules, Succeeded(system, consumer, table))
  {
    hide Unread, Done;
    if consumer == TrafficConsumer {
      assert system.flights[TrafficConsumer].batch[0]
          == Unread(system.history.log, LastOf(system.history.db, TrafficConsumer))[0];
      EffectOfFirstUnread(rules, system);
    }
  }

  lemma HandleKeepsInvariant(rules: Traffic.Rules, system: System, consumer: Consumer, succeeds: bool, retryAt: int)
    requires Invariant(rules, system)
    ensures Invariant(rules, Handled(rules, system, consumer, succeeds, retryAt))
  {
    hide Traced, PrunesSafely, Tracks, Folded, Effects;
    if consumer in system.flights {
      var flight := system.flights[consumer];
      if flight.handled < |flight.batch| && !(IsStandard(consumer) && flight.handled > 0) {
        var row := flight.batch[flight.handled];
        var effect := Outcome(rules, system, consumer, row, succeeds);
        match effect
        case Err(_) =>
          var dropped := system.(flights := system.flights - {consumer});
          DroppingFlightsKeepsInvariant(rules, system, system.flights - {consumer});
          var db := system.history.db;
          RowIdsStart(system.history);
          TouchingCursorsKeepsInvariant(rules, dropped, AfterFailure(db, consumer, row.rowId, retryAt).cursors);
        case Ok(table) =>
          var next := Succeeded(system, consumer, table);
          forall other | IsStandard(other)
            ensures Tracks(next, other)
          {
            SuccessKeepsTracks(system, consumer, table, other);
          }
          assert Tracks(system, TrafficConsumer);
          SuccessKeepsFolded(rules, system, consumer, table);
          KeepsPruner(system, next);
      }
    }
  }

  lemma AcknowledgedRowsWereProcessed(log: seq<Row>, last: nat, processed: set<nat>)
    requires Ordered(log) && Unread(log, last) != []
    requires forall row | row in log && row.rowId <= last :: row.rowId in processed
    requires Unread(log, last)[0].rowId in processed
    ensures forall row | row in log && row.rowId <= Unread(log, last)[0].rowId :: row.rowId in processed
  {
    hide Ordered, Unread, Done;
    var first := Unread(log, last)[0];
    AcknowledgeFirst(log, last);
    DoneElements(log, last);
    DoneElements(log, first.rowId);
    forall row | row in log && row.rowId <= first.rowId
      ensures row.rowId in processed
    {
      assert row in Done(log, last) + [first];
    }
  }

  /** The acknowledged row is the first unread one, of the table and of the log. */
  lemma AdvanceKeepsOwnTracks(system: System, consumer: Consumer)
    requires Tracks(system, consumer) && IsStandard(consumer)
    requires Ordered(system.history.log) && Ordered(system.history.db.rows)
    requires consumer in system.flights && 0 < system.flights[consumer].handled <= |system.flights[consumer].batch|
    ensures Tracks(Acknowledged(system, consumer), consumer)
  {
    hide Ordered, Unread, Done, Processed;
    var log := system.history.log;
    var last := LastOf(system.history.db, consumer);
    var first := system.flights[consumer].batch[0];
    assert first == Unread(log, last)[0];
    AcknowledgeFirst(log, last);
    AcknowledgeFirst(system.history.db.rows, last);
    AcknowledgedRowsWereProcessed(log, last, Processed(system, consumer));
    var next := Acknowledged(system, consumer);
    assert Processed(next, consumer) == Processed(system, consumer) by {
      ProcessedByHistory(system, next, consumer);
    }
    assert LastOf(next.history.db, consumer) == first.rowId;
  }

  lemma ProcessedByHistory(system: System, next: System, consumer: Consumer)
    requires next.processed == system.processed
    ensures Processed(next, consumer) == Processed(system, consumer)
  {
  }

  lemma AdvanceKeepsOtherTracks(system: System, consumer: Consumer, other: Consumer)
    requires Tracks(system, other) && other != consumer
    requires consumer in system.flights && 0 < system.flights[consumer].handled <= |system.flights[consumer].batch|
    ensures Tracks(Acknowledged(system, consumer), other)
  {
    hide Unread;
  }

  lemma AdvanceKeepsFolded(rules: Traffic.Rules, system: System, consumer: Consumer)
    requires Folded(rules, system) && Tracks(system, TrafficConsumer) && Ordered(system.history.log)
    requires consumer in system.flights && 0 < system.flights[consumer].handled <= |system.flights[consumer].batch|
    ensures Folded(rules, Acknowledged(system, consumer))
  {
    hide Ordered, Unread, Done, Effects;
    if consumer == TrafficConsumer {
      AcknowledgeFirst(system.history.log, LastOf(system.history.db, TrafficConsumer));
    }
  }

  lemma AdvanceIsBounded(system: System, consumer: Consumer)
    requires Bounded(system)
    requires consumer in system.flights && 0 < system.flights[consumer].handled <= |system.flights[consumer].batch|
    ensures Bounded(Acknowledged(system, consumer))
    ensures Acknowledged(system, consumer).pruner == system.pruner
    ensures forall other ::
      LastOf(system.history.db, other) <= LastOf(Acknowledged(system, consumer).history.db, other)
  {
    var next := Acknowledged(system, consumer);
    var flight := system.flights[consumer];
    forall i | 0 <= i < |next.flights[consumer].batch|
      ensures next.flights[consumer].batch[i].rowId < system.history.db.nextRow
    {
      assert next.flights[consumer].batch[i] == flight.batch[flight.handled + i];
    }
  }

  lemma AdvanceKeepsInvariant(rules: Traffic.Rules, system: System, consumer: Consumer)
    requires Invariant(rules, system)
    ensures Invariant(rules, Do(rules, system, Advance(consumer)))
  {
    if consumer in system.flights && 0 < system.flights[consumer].handled <= |system.flights[consumer].batch| {
      var next := Acknowledged(system, consumer);
      assert Do(rules, system, Advance(consumer)) == next;
      assert next.history == system.history.(db := system.history.db.(cursors := next.history.db.cursors));
      hide PrunesSafely, Tracks, Folded, Ordered, Traced, Bounded, Do, Acknowledged;
      RowsAreBounded(system.history);
      AdvanceIsBounded(system, consumer);
      KeepsPruner(system, next);
      CursorsAreNotTraced(system.history, next.history.db.cursors);
      forall other | IsStandard(other)
        ensures Tracks(next, other)
      {
        if other == consumer {
          AdvanceKeepsOwnTracks(system, consumer);
        } else {
          AdvanceKeepsOtherTracks(system, consumer, other);
        }
      }
      assert Tracks(system, TrafficConsumer);
      AdvanceKeepsFolded(rules, system, consumer);
    }
  }

  // ---------------------------------------------------------------------------------------------
  // Steps of the pruner
  // ---------------------------------------------------------------------------------------------

  lemma PrunerIsNotTracked(rules: Traffic.Rules, system: System, pruner: Pruner)
    requires Invariant(rules, system) && PrunesSafely(system.(pruner := pruner))
    ensures Invariant(rules, system.(pruner := pruner))
  {
    hide Traced, PrunesSafely, Tracks, Folded;
    FoldedCarriesOver(rules, system, system.(pruner := pruner));
    forall consumer | IsStandard(consumer)
      ensures Tracks(system.(pruner := pruner), consumer)
    {
      TracksCarriesOver(system, system.(pruner := pruner), consumer);
    }
  }

  lemma CoversOneMore(db: Db, names: seq<Consumer>, unread: seq<Consumer>, minimum: Option<nat>, read: nat)
    requires Covers(db, names, unread, minimum, read) && unread != [] && unread[0] in db.cursors
    ensures Covers(db, names, unread[1..], Some(Least(minimum, db.cursors[unread[0]].last)), read + 1)
  {
    assert unread[0] == names[read];
  }

  lemma ReadCursorIsSafe(rules: Traffic.Rules, system: System)
    requires PrunesSafely(system)
    ensures PrunesSafely(Do(rules, system, ReadCursor))
  {
    match system.pruner
    case Resting =>
    case Reading(_, unread, minimum) =>
      var read: nat :| Covers(system.history.db, STANDARD, unread, minimum, read);
      if unread != [] && unread[0] in system.history.db.cursors {
        CoversOneMore(system.history.db, STANDARD, unread, minimum, read);
      }
  }

  /** When the pruner deletes, its minimum is a lower bound of every standard cursor. */
  lemma DeleteIsBelowCursors(system: System)
    requires PrunesSafely(system) && system.pruner.Reading? && system.pruner.unread == [] && system.pruner.minimum.Some?
    ensures forall consumer | IsStandard(consumer) :: system.pruner.minimum.value <= LastOf(system.history.db, consumer)
  {
    var read: nat :| Covers(system.history.db, STANDARD, system.pruner.unread, system.pruner.minimum, read);
    assert |STANDARD[read..]| == 0;
    forall consumer | IsStandard(consumer)
      ensures system.pruner.minimum.value <= LastOf(system.history.db, consumer)
    {
      var index := match consumer
        case TrafficConsumer => 0
        case PolicyConsumer => 1
        case AccessConsumer => 2
        case NetworkConsumer => 3;
      assert STANDARD[index] == consumer;
    }
  }

  lemma DeleteKeepsInvariant(rules: Traffic.Rules, system: System)
    requires Invariant(rules, system)
    ensures Invariant(rules, Do(rules, system, Delete))
  {
    if system.pruner.Reading? && system.pruner.unread == [] && system.pruner.minimum.Some? {
      var minimum, cutoff := system.pruner.minimum.value, system.pruner.cutoff;
      var next := WithDb(system, AfterPrune(system.history.db, minimum, cutoff)).(pruner := Resting);
      assert Do(rules, system, Delete) == next;
      hide Traced, PrunesSafely, Folded, Tracks, Surviving, Do;
      PruningKeepsTraced(system.history, minimum, cutoff);
      DeleteIsBelowCursors(system);
      forall consumer | IsStandard(consumer)
        ensures Tracks(next, consumer)
      {
        DeleteKeepsTracks(system, next, consumer, minimum, cutoff);
      }
      DeleteKeepsFolded(rules, system, next);
      RestingIsSafe(next);
    }
  }

  lemma RestingIsSafe(system: System)
    requires system.pruner.Resting?
    ensures PrunesSafely(system)
  {
  }

  lemma DeleteKeepsTracks(system: System, next: System, consumer: Consumer, minimum: nat, cutoff: int)
    requires Tracks(system, consumer) && minimum <= LastOf(system.history.db, consumer)
    requires next == WithDb(system, AfterPrune(system.history.db, minimum, cutoff)).(pruner := Resting)
    ensures Tracks(next, consumer)
  {
    SurvivingKeepsUnread(system.history.db.rows, minimum, cutoff, LastOf(system.history.db, consumer));
    hide Unread, Surviving;
  }

  lemma DeleteKeepsFolded(rules: Traffic.Rules, system: System, next: System)
    requires Folded(rules, system)
    requires next.history.log == system.history.log && next.history.db.cursors == system.history.db.cursors
    requires next.traffic == system.traffic && next.flights == system.flights
    ensures Folded(rules, next)
  {
    FoldedCarriesOver(rules, system, next);
  }

  // ---------------------------------------------------------------------------------------------
  // Runs
  // ---------------------------------------------------------------------------------------------

  lemma StepKeepsInvariant(rules: Traffic.Rules, system: System, act: Act)
    requires Invariant(rules, system)
    ensures Invariant(rules, Do(rules, system, act))
  {
    hide Invariant;
    match act
    case Arrive(step) => ArrivalKeepsInvariant(rules, system, step);
    case Ensure(consumer) => EnsureKeepsInvariant(rules, system, consumer);
    case Read(consumer, limit) => ReadKeepsInvariant(rules, system, consumer, limit);
    case Handle(consumer, succeeds, retryAt) => HandleKeepsInvariant(rules, system, consumer, succeeds, retryAt);
    case Advance(consumer) => AdvanceKeepsInvariant(rules, system, consumer);
    case Finish(consumer) => DroppingFlightsKeepsInvariant(rules, system, system.flights - {consumer});
    case Crash =>
      DroppingFlightsKeepsInvariant(rules, system, map[]);
      RestingIsSafe(system.(flights := map[], pruner := Resting));
      PrunerIsNotTracked(rules, system.(flights := map[]), Resting);
    case BeginPrune(cutoff) =>
      if system.pruner.Resting? {
        var pruner := Reading(cutoff, STANDARD, None);
        assert Covers(system.history.db, STANDARD, STANDARD, None, 0);
        PrunerIsNotTracked(rules, system, pruner);
      }
    case ReadCursor =>
      InvariantPrunesSafely(rules, system);
      ReadCursorIsSafe(rules, system);
      PrunerIsNotTracked(rules, system, Do(rules, system, ReadCursor).pruner);
    case Delete => DeleteKeepsInvariant(rules, system);
  }

  lemma InvariantPrunesSafely(rules: Traffic.Rules, system: System)
    requires Invariant(rules, system)
    ensures PrunesSafely(system)
  {
  }

  lemma EnsureKeepsInvariant(rules: Traffic.Rules, system: System, consumer: Consumer)
    requires Invariant(rules, system)
    ensures Invariant(rules, Do(rules, system, Ensure(consumer)))
  {
    RowIdsStart(system.history);
    if consumer !in system.history.db.cursors {
      hide Traced, Tracks, Folded, PrunesSafely;
      TouchingCursorsKeepsInvariant(rules, system, AfterEnsure(system.history.db, consumer).cursors);
    }
  }

  /** The invariant holds after every interleaving of arrivals, consumers, crashes and pruning. */
  lemma {:induction false} EveryRunKeepsInvariant(rules: Traffic.Rules, acts: seq<Act>)
    ensures Invariant(rules, DoAll(rules, START, acts))
  {
    if acts == [] {
      assert Unread([], 0) == [] && Done([], 0) == [];
    } else {
      EveryRunKeepsInvariant(rules, acts[..|acts| - 1]);
      StepKeepsInvariant(rules, DoAll(rules, START, acts[..|acts| - 1]), acts[|acts| - 1]);
    }
  }

  /** No row is deleted before every standard consumer has processed it, although the pruner reads their
      cursors one by one while they keep moving. */
  lemma PrunedRowsWereProcessed(rules: Traffic.Rules, acts: seq<Act>, row: Row, consumer: Consumer)
    requires var system := DoAll(rules, START, acts);
      row in system.history.log && row !in system.history.db.rows && IsStandard(consumer)
    ensures row.rowId in Processed(DoAll(rules, START, acts), consumer)
  {
    EveryRunKeepsInvariant(rules, acts);
    var system := DoAll(rules, START, acts);
    var last := LastOf(system.history.db, consumer);
    assert Tracks(system, consumer);
    if row.rowId > last {
      UnreadIsExact(system.history.log, last, row);
      UnreadElements(system.history.db.rows, last);
      assert false;
    }
  }

  lemma {:induction false} UnreadIsExact(rows: seq<Row>, last: nat, row: Row)
    requires row in rows && row.rowId > last
    ensures row in Unread(rows, last)
  {
    if row in rows[..|rows| - 1] {
      UnreadIsExact(rows[..|rows| - 1], last, row);
    } else {
      assert row == rows[|rows| - 1];
    }
  }

  /** Whatever crashed between an effect and its cursor, the traffic table holds each event of the log up to
      the cursor exactly once, and at most the next event as well; every event passed was accepted. */
  lemma TrafficIsOneFold(rules: Traffic.Rules, acts: seq<Act>)
    ensures var system := DoAll(rules, START, acts);
            var last := LastOf(system.history.db, TrafficConsumer);
            var done, unread := Done(system.history.log, last), Unread(system.history.log, last);
            && system.history.log == done + unread
            && Effects(rules, done).Ok?
            && (|| Effects(rules, done) == Ok(system.traffic)
                || (unread != [] && Effects(rules, done + [unread[0]]) == Ok(system.traffic)))
  {
    EveryRunKeepsInvariant(rules, acts);
    var system := DoAll(rules, START, acts);
    RowsAreBounded(system.history);
    OrderedSplits(system.history.log, LastOf(system.history.db, TrafficConsumer));
  }

  /** The traffic snapshots of a log, in order. */
  function Snapshots(rows: seq<Row>): seq<Traffic.Report> {
    if rows == [] then []
    else
      var last := rows[|rows| - 1];
      Snapshots(rows[..|rows| - 1])
      + if last.event.kind == TrafficSnapshotKind && last.event.payload.TrafficPayload?
        then [Report(last, last.event.payload.value)] else []
  }

  lemma {:induction false} EffectsApplySnapshots(rules: Traffic.Rules, rows: seq<Row>)
    requires Effects(rules, rows).Ok?
    ensures Traffic.ApplyAll(rules, map[], Snapshots(rows)) == Effects(rules, rows)
  {
    if rows != [] {
      var front, last := rows[..|rows| - 1], rows[|rows| - 1];
      EffectsApplySnapshots(rules, front);
      var snapshots := Snapshots(rows);
      if last.event.kind == TrafficSnapshotKind {
        assert snapshots[..|snapshots| - 1] == Snapshots(front);
      } else {
        assert snapshots == Snapshots(front);
      }
    }
  }

  /** Two runs whose traffic consumers passed the same orderly snapshots, in whatever order and at whatever times
      they arrived, were batched and were retried, and with no effect ahead of its cursor, store the same counters. */
  lemma RunsStoreTheSameCounters(rules: Traffic.Rules, left: System, right: System, key: Traffic.Key)
    requires Invariant(rules, left) && Invariant(rules, right)
    requires var a := Done(left.history.log, LastOf(left.history.db, TrafficConsumer));
             var b := Done(right.history.log, LastOf(right.history.db, TrafficConsumer));
      && Traffic.Orderly(rules, Snapshots(a))
      && Traffic.SameSnapshots(Snapshots(a), Snapshots(b))
      && (forall report | report in Snapshots(b) :: report.source.receivedAt != Traffic.ZERO_TIME)
      && Effects(rules, a) == Ok(left.traffic) && Effects(rules, b) == Ok(right.traffic)
    ensures (key in left.traffic) == (key in right.traffic)
    ensures key in left.traffic ==> left.traffic[key].counters == right.traffic[key].counters
  {
    hide Invariant;
    var a := Done(left.history.log, LastOf(left.history.db, TrafficConsumer));
    var b := Done(right.history.log, LastOf(right.history.db, TrafficConsumer));
    EffectsApplySnapshots(rules, a);
    EffectsApplySnapshots(rules, b);
    Traffic.LogsAreConfluent(rules, Snapshots(a), Snapshots(b), key);
  }
}
