/** What every run of the event database keeps, and why the batching of an agent does not matter. */
module EventStreams {
  import opened Outcomes
  import opened EventStore

  ghost predicate Ordered(rows: seq<Row>) {
    forall i, j | 0 <= i < j < |rows| :: rows[i].rowId < rows[j].rowId
  }

  /** The uniqueness constraints of the events table. */
  ghost predicate Distinct(rows: seq<Row>) {
    forall i, j | 0 <= i < j < |rows| ::
      && rows[i].event.id != rows[j].event.id
      && !(rows[i].stream == rows[j].stream && rows[i].event.sequence == rows[j].event.sequence)
  }

  ghost predicate Consistent(db: Db) {
    && db.nextRow >= 1
    && Ordered(db.rows)
    && Distinct(db.rows)
    && (forall row | row in db.rows ::
          && row.rowId < db.nextRow
          && row.stream in db.streams
          && 1 <= row.event.sequence <= db.streams[row.stream])
  }

  // ---------------------------------------------------------------------------------------------
  // One batch
  // ---------------------------------------------------------------------------------------------

  /** `after` holds the rows of `db` followed by new rows that carry events of `events`. */
  ghost predicate Grown(db: Db, after: Db, stream: Stream, events: seq<Event>) {
    && after.streams == db.streams
    && after.cursors == db.cursors
    && |db.rows| <= |after.rows|
    && after.rows[..|db.rows|] == db.rows
    && db.nextRow <= after.nextRow
    && Ordered(after.rows)
    && Distinct(after.rows)
    && (forall i | 0 <= i < |after.rows| :: after.rows[i].rowId < after.nextRow)
    && (forall i | |db.rows| <= i < |after.rows| ::
          after.rows[i].rowId >= db.nextRow && after.rows[i].stream == stream && after.rows[i].event in events)
  }

  predicate Consecutive(events: seq<Event>, first: nat) {
    forall i | 0 <= i < |events| :: events[i].sequence == first + i
  }

  ghost predicate Carries(rows: seq<Row>, from: nat, event: Event) {
    exists i | from <= i < |rows| :: rows[i].event == event
  }

  lemma InsertionKeepsGrown(db: Db, before: Db, stream: Stream, events: seq<Event>, event: Event, receivedAt: int)
    requires Grown(db, before, stream, events) && event in events && !Clashes(before.rows, stream, event)
    ensures Grown(db, Insert(before, stream, event, receivedAt), stream, events)
  {
    var row := Row(before.nextRow, stream, event, receivedAt);
    var after := Insert(before, stream, event, receivedAt);
    assert after.rows[..|db.rows|] == before.rows[..|db.rows|];
    assert forall other | other in before.rows :: other.rowId < row.rowId;
    hide Ordered, Distinct, Clashes;
    UniqueRowExtends(before.rows, row);
  }

  lemma UniqueRowExtends(rows: seq<Row>, added: Row)
    requires Ordered(rows) && Distinct(rows)
    requires forall row | row in rows :: row.rowId < added.rowId
    requires !Clashes(rows, added.stream, added.event)
    ensures Ordered(rows + [added]) && Distinct(rows + [added])
  {
    forall i | 0 <= i < |rows|
      ensures rows[i].rowId < added.rowId
      ensures rows[i].event.id != added.event.id
      ensures !(rows[i].stream == added.stream && rows[i].event.sequence == added.event.sequence)
    {
      assert rows[i] in rows;
    }
  }

  /** No row of the stream stands above its cursor, neither before the batch nor from the batch itself. */
  lemma NoRowAbove(db: Db, before: Db, stream: Stream, events: seq<Event>, sequence: nat)
    requires Consistent(db) && Grown(db, before, stream, events)
    requires sequence > Highest(db, stream) && forall event | event in events :: event.sequence < sequence
    ensures FindPlace(before.rows, stream, sequence) == None
  {
    forall row | row in before.rows
      ensures !(row.stream == stream && row.event.sequence == sequence)
    {
      var i :| 0 <= i < |before.rows| && before.rows[i] == row;
      assert i < |db.rows| ==> before.rows[..|db.rows|][i] in db.rows;
    }
  }

  lemma {:induction false} AcceptedEventsGrow(db: Db, stream: Stream, events: seq<Event>, receivedAt: int, highest: nat)
    requires Consistent(db) && IngestAll(db, stream, events, receivedAt, highest).Ok?
    ensures Grown(db, IngestAll(db, stream, events, receivedAt, highest).value, stream, events)
  {
    hide Ordered, Distinct, Clashes;
    if events == [] {
      assert db.rows[..|db.rows|] == db.rows;
      assert forall i | 0 <= i < |db.rows| :: db.rows[i] in db.rows;
    } else {
      var front, last := events[..|events| - 1], events[|events| - 1];
      AcceptedEventsGrow(db, stream, front, receivedAt, highest);
      var before := IngestAll(db, stream, front, receivedAt, highest).value;
      assert Grown(db, before, stream, events);
      if !Clashes(before.rows, stream, last) {
        InsertionKeepsGrown(db, before, stream, events, last, receivedAt);
      }
    }
  }

  /** No live row stands at a place above the cursor, so an accepted batch stores every event above it. */
  lemma {:induction false} AcceptedEventsAreStored(db: Db, stream: Stream, events: seq<Event>, first: nat, receivedAt: int)
    requires Consistent(db) && Consecutive(events, first)
    requires IngestAll(db, stream, events, receivedAt, Highest(db, stream)).Ok?
    ensures var after := IngestAll(db, stream, events, receivedAt, Highest(db, stream)).value;
            && Grown(db, after, stream, events)
            && forall event | event in events && event.sequence > Highest(db, stream) ::
                 Carries(after.rows, |db.rows|, event)
  {
    hide Consistent, Grown, Clashes, Carries, Highest;
    AcceptedEventsGrow(db, stream, events, receivedAt, Highest(db, stream));
    if events != [] {
      var front, last := events[..|events| - 1], events[|events| - 1];
      AcceptedEventsAreStored(db, stream, front, first, receivedAt);
      var before := IngestAll(db, stream, front, receivedAt, Highest(db, stream)).value;
      var after := IngestAll(db, stream, events, receivedAt, Highest(db, stream)).value;
      GrownIsLonger(db, before, stream, front);
      if last.sequence > Highest(db, stream) {
        NoRowAbove(db, before, stream, front, last.sequence);
        assert after.rows == before.rows + [Row(before.nextRow, stream, last, receivedAt)];
        LastIsCarried(before.rows, after.rows[|before.rows|], |db.rows|);
      }
      assert after == before || after == Insert(before, stream, last, receivedAt);
      hide IngestAll, IngestEvent;
      forall event | event in events && event.sequence > Highest(db, stream)
        ensures Carries(after.rows, |db.rows|, event)
      {
        assert event in front || event == last;
        if event in front {
          CarriedOn(before.rows, after.rows, |db.rows|, event);
        }
      }
    }
  }

  lemma LastIsCarried(rows: seq<Row>, row: Row, from: nat)
    requires from <= |rows|
    ensures Carries(rows + [row], from, row.event)
  {
    assert (rows + [row])[|rows|] == row;
  }

  lemma CarriedOn(before: seq<Row>, after: seq<Row>, from: nat, event: Event)
    requires Carries(before, from, event) && (after == before || exists row :: after == before + [row])
    ensures Carries(after, from, event)
  {
    var i :| from <= i < |before| && before[i].event == event;
    assert after[i] == before[i];
  }

  lemma GrownIsLonger(db: Db, after: Db, stream: Stream, events: seq<Event>)
    requires Grown(db, after, stream, events)
    ensures |db.rows| <= |after.rows|
  {
    hide Ordered, Distinct;
  }

  // ---------------------------------------------------------------------------------------------
  // Runs
  // ---------------------------------------------------------------------------------------------

  datatype Step =
    | Ingesting(stream: Stream, batch: Batch, receivedAt: int)
    | Publishing(plugin: string, sources: seq<Published>, receivedAt: int, maximum: nat)
    | Pruning(minimum: nat, cutoff: int)

  /** The database together with every row it ever stored, in order. */
  datatype History = History(db: Db, log: seq<Row>)

  function AfterPublish(db: Db, plugin: string, sources: seq<Published>, receivedAt: int, maximum: nat): Db {
    match PublishAll(db, plugin, sources, receivedAt, maximum)
    case Ok(after) => after
    case Err(_) => db
  }

  function Added(before: Db, after: Db): seq<Row> {
    if |before.rows| <= |after.rows| then after.rows[|before.rows|..] else []
  }

  /** `after` only appended rows, under IDs never used before. */
  ghost predicate Extends(before: Db, after: Db) {
    && |before.rows| <= |after.rows|
    && after.rows[..|before.rows|] == before.rows
    && after.cursors == before.cursors
    && before.nextRow <= after.nextRow
    && forall i | |before.rows| <= i < |after.rows| :: after.rows[i].rowId >= before.nextRow
  }

  function Next(history: History, step: Step): History {
    match step
    case Ingesting(stream, batch, receivedAt) =>
      var after := AfterIngest(history.db, stream, batch, receivedAt).0;
      History(after, history.log + Added(history.db, after))
    case Publishing(plugin, sources, receivedAt, maximum) =>
      var after := AfterPublish(history.db, plugin, sources, receivedAt, maximum);
      History(after, history.log + Added(history.db, after))
    case Pruning(minimum, cutoff) =>
      History(AfterPrune(history.db, minimum, cutoff), history.log)
  }

  function Run(history: History, steps: seq<Step>): History {
    if steps == [] then history else Next(Run(history, steps[..|steps| - 1]), steps[|steps| - 1])
  }

  const EMPTY: History := History(Db(map[], [], 1, map[]), [])

  ghost predicate Stored(log: seq<Row>, stream: Stream, sequence: nat) {
    exists row | row in log :: row.stream == stream && row.event.sequence == sequence
  }

  /** For every stream the sequences ever stored, live or pruned, are exactly 1 up to its cursor. */
  ghost predicate Traced(history: History) {
    && Consistent(history.db)
    && Ordered(history.log)
    && (forall row | row in history.log :: row.rowId < history.db.nextRow)
    && (forall row | row in history.db.rows :: row in history.log)
    && (forall stream, sequence: nat :: Stored(history.log, stream, sequence) <==> 1 <= sequence <= Highest(history.db, stream))
  }

  /** Appending rows to both the table and the log keeps the history traced when the streams' cursors move
      over exactly the new places. */
  lemma AppendingKeepsTraced(history: History, after: Db)
    requires Traced(history) && Consistent(after) && Extends(history.db, after)
    requires forall stream :: Highest(history.db, stream) <= Highest(after, stream)
    requires forall stream, sequence: nat | Highest(history.db, stream) < sequence <= Highest(after, stream) ::
      Stored(Added(history.db, after), stream, sequence)
    ensures Traced(History(after, history.log + Added(history.db, after)))
  {
    hide Distinct;
    var added := Added(history.db, after);
    assert after.rows == history.db.rows + added;
    assert forall row | row in added :: row in after.rows && row.rowId >= history.db.nextRow;
    assert Ordered(added);
    hide Ordered;
    OrderedConcatenation(history.log, added, history.db.nextRow);
    forall stream, sequence: nat
      ensures Stored(history.log + added, stream, sequence) <==> 1 <= sequence <= Highest(after, stream)
    {
      StoredInEither(history.log, added, stream, sequence);
      if Stored(added, stream, sequence) {
        var row :| row in added && row.stream == stream && row.event.sequence == sequence;
        assert row in after.rows;
      }
    }
  }

  lemma OrderedConcatenation(front: seq<Row>, back: seq<Row>, bound: nat)
    requires Ordered(front) && Ordered(back)
    requires (forall row | row in front :: row.rowId < bound) && forall row | row in back :: row.rowId >= bound
    ensures Ordered(front + back)
  {
    forall i, j | 0 <= i < j < |front + back|
      ensures (front + back)[i].rowId < (front + back)[j].rowId
    {
      if i < |front| <= j {
        assert front[i] in front && back[j - |front|] in back;
      }
    }
  }

  lemma StoredInEither(front: seq<Row>, back: seq<Row>, stream: Stream, sequence: nat)
    ensures Stored(front + back, stream, sequence) <==> Stored(front, stream, sequence) || Stored(back, stream, sequence)
  {
    assert forall row :: row in front + back <==> row in front || row in back;
  }

  /** The cursor moves to `reached`, past every event of the batch. */
  lemma GrownIsConsistent(db: Db, grown: Db, stream: Stream, events: seq<Event>, reached: nat)
    requires Consistent(db) && stream in db.streams && Grown(db, grown, stream, events)
    requires db.streams[stream] <= reached && forall event | event in events :: 1 <= event.sequence <= reached
    ensures Consistent(grown.(streams := grown.streams[stream := reached]))
  {
    forall row | row in grown.rows
      ensures row.stream in grown.streams
      ensures 1 <= row.event.sequence <= grown.streams[stream := reached][row.stream]
    {
      var i :| 0 <= i < |grown.rows| && grown.rows[i] == row;
      assert i < |db.rows| ==> grown.rows[..|db.rows|][i] in db.rows;
    }
  }

  /** An accepted batch: what it appended and where the cursor went. */
  lemma AcceptedBatch(db: Db, stream: Stream, batch: Batch, receivedAt: int) returns (grown: Db, reached: nat)
    requires Consistent(db) && AfterIngest(db, stream, batch, receivedAt).1.Ok?
    ensures Consistent(Begun(db, stream)) && Grown(Begun(db, stream), grown, stream, batch.events)
    ensures reached == if batch.last > Highest(db, stream) then batch.last else Highest(db, stream)
    ensures AfterIngest(db, stream, batch, receivedAt).0 == grown.(streams := grown.streams[stream := reached])
    ensures forall event | event in batch.events && event.sequence > Highest(db, stream) ::
      Carries(grown.rows, |db.rows|, event)
  {
    var begun := Begun(db, stream);
    AcceptedEventsAreStored(begun, stream, batch.events, batch.first, receivedAt);
    grown := IngestAll(begun, stream, batch.events, receivedAt, Highest(db, stream)).value;
    reached := if batch.last > Highest(db, stream) then batch.last else Highest(db, stream);
    if batch.last <= Highest(db, stream) {
      assert grown.streams[stream := reached] == grown.streams;
    }
  }

  lemma IngestingKeepsTraced(history: History, stream: Stream, batch: Batch, receivedAt: int)
    requires Traced(history)
    ensures Traced(Next(history, Ingesting(stream, batch, receivedAt)))
    ensures Extends(history.db, AfterIngest(history.db, stream, batch, receivedAt).0)
  {
    hide Ordered, Distinct, Carries, IngestAll, Clashes, Stored;
    var db := history.db;
    var (after, result) := AfterIngest(db, stream, batch, receivedAt);
    if result.Ok? {
      var grown, reached := AcceptedBatch(db, stream, batch, receivedAt);
      GrownIsConsistent(Begun(db, stream), grown, stream, batch.events, reached);
      BatchFillsTheGap(db, stream, batch, receivedAt);
      AppendingKeepsTraced(history, after);
    } else {
      assert history.log + Added(db, db) == history.log;
    }
  }

  lemma BatchFillsTheGap(db: Db, stream: Stream, batch: Batch, receivedAt: int)
    requires Consistent(db) && AfterIngest(db, stream, batch, receivedAt).1.Ok?
    ensures var after := AfterIngest(db, stream, batch, receivedAt).0;
            forall sequence: nat | Highest(db, stream) < sequence <= Highest(after, stream) ::
              Stored(Added(db, after), stream, sequence)
  {
    var after := AfterIngest(db, stream, batch, receivedAt).0;
    var grown, reached := AcceptedBatch(db, stream, batch, receivedAt);
    var added := Added(db, after);
    forall sequence: nat | Highest(db, stream) < sequence <= reached
      ensures Stored(added, stream, sequence)
    {
      var event := batch.events[sequence - batch.first];
      assert Carries(grown.rows, |db.rows|, event);
      var i :| |db.rows| <= i < |grown.rows| && grown.rows[i].event == event;
      assert grown.rows[i] == added[i - |db.rows|] && added[i - |db.rows|] in added;
    }
  }

  /** The places above a cursor are free, so publishing never violates a uniqueness constraint. */
  lemma PublishedPlaceIsFree(db: Db, plugin: string, source: Published, receivedAt: int, maximum: nat)
    requires Consistent(db)
    ensures PublishEvent(db, plugin, source, receivedAt, maximum) != Err(Constraint)
  {
    var stream := PluginStream(plugin, source.node);
    assert forall row | row in db.rows :: !(row.stream == stream && row.event.sequence == Highest(db, stream) + 1);
  }

  lemma ExtensionsCompose(first: Db, second: Db, third: Db)
    requires Extends(first, second) && Extends(second, third)
    ensures Extends(first, third) && Added(first, third) == Added(first, second) + Added(second, third)
  {
    assert third.rows == second.rows + Added(second, third);
    assert second.rows == first.rows + Added(first, second);
  }

  /** The table after storing an event at the next place of its stream. */
  function Appended(db: Db, stream: Stream, event: Event, receivedAt: int): Db {
    var inserted := Insert(db, stream, event, receivedAt);
    inserted.(streams := inserted.streams[stream := event.sequence])
  }

  lemma AppendedIsConsistent(db: Db, stream: Stream, event: Event, receivedAt: int)
    requires Consistent(db) && event.sequence == Highest(db, stream) + 1 && !Clashes(db.rows, stream, event)
    ensures Consistent(Appended(db, stream, event, receivedAt))
  {
    UniqueRowExtends(db.rows, Row(db.nextRow, stream, event, receivedAt));
  }

  lemma NextEventKeepsTraced(history: History, stream: Stream, event: Event, receivedAt: int)
    requires Traced(history) && event.sequence == Highest(history.db, stream) + 1
    requires !Clashes(history.db.rows, stream, event)
    ensures var after := Appended(history.db, stream, event, receivedAt);
            Extends(history.db, after) && Traced(History(after, history.log + Added(history.db, after)))
  {
    var db := history.db;
    var after := Appended(db, stream, event, receivedAt);
    AppendedIsConsistent(db, stream, event, receivedAt);
    var added := Added(db, after);
    assert added == [Row(db.nextRow, stream, event, receivedAt)];
    forall other, sequence: nat | Highest(db, other) < sequence <= Highest(after, other)
      ensures Stored(added, other, sequence)
    {
      assert added[0] in added;
    }
    AppendingKeepsTraced(history, after);
  }

  lemma PublishingOneKeepsTraced(history: History, plugin: string, source: Published, receivedAt: int, maximum: nat)
    requires Traced(history) && PublishEvent(history.db, plugin, source, receivedAt, maximum).Ok?
    ensures var after := PublishEvent(history.db, plugin, source, receivedAt, maximum).value;
            Extends(history.db, after) && Traced(History(after, history.log + Added(history.db, after)))
  {
    hide Traced, PluginStream, PluginEventId;
    var db := history.db;
    if FindId(db.rows, PluginEventId(plugin, source.sourceId)).Some? {
      assert history.log + Added(db, db) == history.log;
    } else {
      var stream := PluginStream(plugin, source.node);
      NextEventKeepsTraced(history, stream, PublishedEvent(plugin, source, Highest(db, stream) + 1), receivedAt);
    }
  }

  lemma PublishingNextKeepsTraced(history: History, before: Db, plugin: string, source: Published, receivedAt: int, maximum: nat)
    requires Extends(history.db, before) && Traced(History(before, history.log + Added(history.db, before)))
    requires PublishEvent(before, plugin, source, receivedAt, maximum).Ok?
    ensures var after := PublishEvent(before, plugin, source, receivedAt, maximum).value;
            Extends(history.db, after) && Traced(History(after, history.log + Added(history.db, after)))
  {
    hide Traced, PublishEvent, Extends, Added;
    var middle := History(before, history.log + Added(history.db, before));
    PublishingOneKeepsTraced(middle, plugin, source, receivedAt, maximum);
    var after := PublishEvent(before, plugin, source, receivedAt, maximum).value;
    ExtensionsCompose(history.db, before, after);
    assert middle.log + Added(before, after) == history.log + Added(history.db, after);
  }

  lemma {:induction false} PublishingKeepsTraced(history: History, plugin: string, sources: seq<Published>, receivedAt: int,
                                                 maximum: nat)
    requires Traced(history)
    ensures PublishAll(history.db, plugin, sources, receivedAt, maximum) != Err(Constraint)
    ensures match PublishAll(history.db, plugin, sources, receivedAt, maximum)
            case Err(_) => true
            case Ok(after) => Extends(history.db, after) && Traced(History(after, history.log + Added(history.db, after)))
  {
    if sources == [] {
      assert history.log + Added(history.db, history.db) == history.log;
    } else {
      var front, last := sources[..|sources| - 1], sources[|sources| - 1];
      PublishingKeepsTraced(history, plugin, front, receivedAt, maximum);
      var first := PublishAll(history.db, plugin, front, receivedAt, maximum);
      if first.Ok? {
        PublishedPlaceIsFree(first.value, plugin, last, receivedAt, maximum);
        if PublishEvent(first.value, plugin, last, receivedAt, maximum).Ok? {
          PublishingNextKeepsTraced(history, first.value, plugin, last, receivedAt, maximum);
        }
      }
    }
  }

  lemma {:induction false} SurvivingKeepsOrder(rows: seq<Row>, minimum: nat, cutoff: int)
    requires Ordered(rows)
    ensures Ordered(Surviving(rows, minimum, cutoff))
  {
    if rows != [] {
      var front, last := rows[..|rows| - 1], rows[|rows| - 1];
      SurvivingKeepsOrder(front, minimum, cutoff);
      var kept := Surviving(front, minimum, cutoff);
      forall i | 0 <= i < |kept|
        ensures kept[i].rowId < last.rowId
      {
        assert kept[i] in kept;
        var j :| 0 <= j < |front| && front[j] == kept[i];
        assert rows[j] == front[j];
      }
    }
  }

  lemma SubsetKeepsDistinct(rows: seq<Row>, kept: seq<Row>)
    requires Ordered(rows) && Distinct(rows) && Ordered(kept)
    requires forall row | row in kept :: row in rows
    ensures Distinct(kept)
  {
    forall i, j | 0 <= i < j < |kept|
      ensures kept[i].event.id != kept[j].event.id
      ensures !(kept[i].stream == kept[j].stream && kept[i].event.sequence == kept[j].event.sequence)
    {
      assert kept[i] in kept && kept[j] in kept;
      var x :| 0 <= x < |rows| && rows[x] == kept[i];
      var y :| 0 <= y < |rows| && rows[y] == kept[j];
    }
  }

  lemma PruningKeepsTraced(history: History, minimum: nat, cutoff: int)
    requires Traced(history)
    ensures Traced(Next(history, Pruning(minimum, cutoff)))
  {
    SurvivingKeepsOrder(history.db.rows, minimum, cutoff);
    SubsetKeepsDistinct(history.db.rows, Surviving(history.db.rows, minimum, cutoff));
    assert forall stream :: Highest(AfterPrune(history.db, minimum, cutoff), stream) == Highest(history.db, stream);
  }

  /** Whatever batches, publications and prunings a run performs, live and pruned sequences of every
      stream together are exactly 1 up to its cursor, and no publication hits a uniqueness constraint. */
  lemma {:induction false} EveryRunIsTraced(steps: seq<Step>)
    ensures Traced(Run(EMPTY, steps))
  {
    if steps != [] {
      var history := Run(EMPTY, steps[..|steps| - 1]);
      EveryRunIsTraced(steps[..|steps| - 1]);
      match steps[|steps| - 1]
      case Ingesting(stream, batch, receivedAt) => IngestingKeepsTraced(history, stream, batch, receivedAt);
      case Publishing(plugin, sources, receivedAt, maximum) =>
        PublishingKeepsTraced(history, plugin, sources, receivedAt, maximum);
        assert history.log + Added(history.db, history.db) == history.log;
      case Pruning(minimum, cutoff) => PruningKeepsTraced(history, minimum, cutoff);
    }
  }

  // ---------------------------------------------------------------------------------------------
  // What pruning allows
  // ---------------------------------------------------------------------------------------------

  lemma UnprunedStep(history: History, step: Step)
    requires Traced(history) && history.log == history.db.rows && !step.Pruning?
    ensures Next(history, step).log == Next(history, step).db.rows
  {
    match step
    case Ingesting(stream, batch, receivedAt) =>
      IngestingExtends(history.db, stream, batch, receivedAt);
      hide AfterIngest, Traced;
    case Publishing(plugin, sources, receivedAt, maximum) =>
      PublishingExtends(history, plugin, sources, receivedAt, maximum);
      hide AfterPublish, Traced;
  }

  /** Without pruning nothing is stored twice: every row ever stored is live, and live rows have distinct places. */
  lemma {:induction false} UnprunedLogIsTheTable(steps: seq<Step>)
    requires forall i | 0 <= i < |steps| :: !steps[i].Pruning?
    ensures Run(EMPTY, steps).log == Run(EMPTY, steps).db.rows && Consistent(Run(EMPTY, steps).db)
  {
    EveryRunIsTraced(steps);
    hide Next, Consistent;
    assert Consistent(Run(EMPTY, steps).db);
    if steps != [] {
      EveryRunIsTraced(steps[..|steps| - 1]);
      hide Traced;
      UnprunedLogIsTheTable(steps[..|steps| - 1]);
      UnprunedStep(Run(EMPTY, steps[..|steps| - 1]), steps[|steps| - 1]);
    }
  }

  lemma PublishingExtends(history: History, plugin: string, sources: seq<Published>, receivedAt: int, maximum: nat)
    requires Traced(history)
    ensures var after := AfterPublish(history.db, plugin, sources, receivedAt, maximum);
            |history.db.rows| <= |after.rows| && after.rows[..|history.db.rows|] == history.db.rows
  {
    PublishingKeepsTraced(history, plugin, sources, receivedAt, maximum);
  }

  lemma IngestingExtends(db: Db, stream: Stream, batch: Batch, receivedAt: int)
    requires Consistent(db)
    ensures var after := AfterIngest(db, stream, batch, receivedAt).0;
            |db.rows| <= |after.rows| && after.rows[..|db.rows|] == db.rows
  {
    if AfterIngest(db, stream, batch, receivedAt).1.Ok? {
      var grown, reached := AcceptedBatch(db, stream, batch, receivedAt);
    }
  }

  /** A batch, the pruning of its row, and the batch again. */
  function ReplayAfterPruning(): seq<Step> {
    var batch := Batch(1, 1, [Event(1, "e", OtherKind("k"), 0, Opaque(""))]);
    [Ingesting(Stream("n", "s"), batch, 0), Pruning(1, 1), Ingesting(Stream("n", "s"), batch, 2)]
  }

  /** With pruning it may be: the replay of a pruned event is stored again under a new row ID. */
  lemma PrunedReplayIsStoredAgain()
    ensures var log := Run(EMPTY, ReplayAfterPruning()).log;
      && |log| == 2 && log[0].event == log[1].event && log[0].stream == log[1].stream && log[0].rowId < log[1].rowId
  {
    var steps := ReplayAfterPruning();
    var stream, event := Stream("n", "s"), Event(1, "e", OtherKind("k"), 0, Opaque(""));
    var first := Next(EMPTY, steps[0]);
    assert IngestAll(Begun(EMPTY.db, stream), stream, [], 0, 0) == Ok(Begun(EMPTY.db, stream));
    assert first.log == [Row(1, stream, event, 0)];
    var pruned := Next(first, steps[1]);
    assert pruned.db.rows == [];
    assert IngestAll(pruned.db, stream, [], 2, 1) == Ok(pruned.db);
    var again := Next(pruned, steps[2]);
    assert again.log == [Row(1, stream, event, 0), Row(2, stream, event, 2)];
    assert steps[..2][..1] == steps[..1] && steps[..1][..0] == [];
    assert Run(EMPTY, steps[..1]) == first && Run(EMPTY, steps[..2]) == pruned;
  }

  // ---------------------------------------------------------------------------------------------
  // Retransmission
  // ---------------------------------------------------------------------------------------------

  /** Ingesting the event again as a replay changes nothing. */
  predicate Settled(db: Db, stream: Stream, event: Event) {
    && Clashes(db.rows, stream, event)
    && (match FindPlace(db.rows, stream, event.sequence)
        case None => true
        case Some(existing) => existing.event == event)
  }

  lemma InsertionKeepsSettled(db: Db, stream: Stream, event: Event, inserted: Event, receivedAt: int)
    requires Settled(db, stream, event) && event.sequence != inserted.sequence
    ensures Settled(Insert(db, stream, inserted, receivedAt), stream, event)
  {
    var rows := Insert(db, stream, inserted, receivedAt).rows;
    assert rows[..|rows| - 1] == db.rows;
    var row :| row in db.rows && (row.event.id == event.id || (row.stream == stream && row.event.sequence == event.sequence));
    assert row in rows;
  }

  lemma InsertedIsSettled(db: Db, stream: Stream, event: Event, receivedAt: int)
    ensures Settled(Insert(db, stream, event, receivedAt), stream, event)
  {
    var rows := Insert(db, stream, event, receivedAt).rows;
    assert rows[|rows| - 1] in rows;
  }

  lemma {:induction false} AcceptedEventsAreSettled(db: Db, stream: Stream, events: seq<Event>, first: nat, receivedAt: int,
                                                    highest: nat)
    requires Consecutive(events, first) && IngestAll(db, stream, events, receivedAt, highest).Ok?
    ensures var after := IngestAll(db, stream, events, receivedAt, highest).value;
            forall i | 0 <= i < |events| :: Settled(after, stream, events[i])
  {
    if events != [] {
      var front, last := events[..|events| - 1], events[|events| - 1];
      AcceptedEventsAreSettled(db, stream, front, first, receivedAt, highest);
      var before := IngestAll(db, stream, front, receivedAt, highest).value;
      var after := IngestAll(db, stream, events, receivedAt, highest).value;
      forall i | 0 <= i < |events|
        ensures Settled(after, stream, events[i])
      {
        if Clashes(before.rows, stream, last) {
          assert i < |front| ==> front[i] == events[i];
        } else if i < |front| {
          assert Settled(before, stream, front[i]);
          InsertionKeepsSettled(before, stream, front[i], last, receivedAt);
        } else {
          InsertedIsSettled(before, stream, last, receivedAt);
        }
      }
    }
  }

  lemma {:induction false} SettledEventsAreReplayed(db: Db, stream: Stream, events: seq<Event>, receivedAt: int, highest: nat)
    requires forall event | event in events :: Settled(db, stream, event) && event.sequence <= highest
    ensures IngestAll(db, stream, events, receivedAt, highest) == Ok(db)
  {
    if events != [] {
      SettledEventsAreReplayed(db, stream, events[..|events| - 1], receivedAt, highest);
    }
  }

  /** Sending an accepted batch again changes nothing at all and reports the same cursor. */
  lemma ResendingIsANoOp(db: Db, stream: Stream, batch: Batch, receivedAt: int, again: int)
    requires AfterIngest(db, stream, batch, receivedAt).1.Ok?
    ensures var (after, result) := AfterIngest(db, stream, batch, receivedAt);
            AfterIngest(after, stream, batch, again) == (after, result)
  {
    var highest := Highest(db, stream);
    var (after, result) := AfterIngest(db, stream, batch, receivedAt);
    AcceptedEventsAreSettled(Begun(db, stream), stream, batch.events, batch.first, receivedAt, highest);
    IngestAllKeepsStreams(Begun(db, stream), stream, batch.events, receivedAt, highest);
    forall event | event in batch.events
      ensures Settled(after, stream, event) && event.sequence <= result.value
    {
      var i :| 0 <= i < |batch.events| && batch.events[i] == event;
    }
    SettledEventsAreReplayed(after, stream, batch.events, again, Highest(after, stream));
  }

  lemma {:induction false} IngestAllKeepsStreams(db: Db, stream: Stream, events: seq<Event>, receivedAt: int, highest: nat)
    requires IngestAll(db, stream, events, receivedAt, highest).Ok?
    ensures IngestAll(db, stream, events, receivedAt, highest).value.streams == db.streams
  {
    if events != [] {
      IngestAllKeepsStreams(db, stream, events[..|events| - 1], receivedAt, highest);
    }
  }

  // ---------------------------------------------------------------------------------------------
  // What rows hold
  // ---------------------------------------------------------------------------------------------

  /** The rows from a length on hold these events, under the IDs that followed. */
  predicate HoldBatch(db: Db, after: Db, stream: Stream, events: seq<Event>, receivedAt: int) {
    && |db.rows| <= |after.rows| && after.rows[..|db.rows|] == db.rows
    && after.streams == db.streams && after.cursors == db.cursors
    && after.nextRow == db.nextRow + (|after.rows| - |db.rows|)
    && forall i | |db.rows| <= i < |after.rows| ::
         && after.rows[i].stream == stream && after.rows[i].event in events && after.rows[i].receivedAt == receivedAt
         && after.rows[i].rowId == db.nextRow + (i - |db.rows|)
  }

  lemma OneMoreRow(db: Db, before: Db, after: Db, stream: Stream, events: seq<Event>, receivedAt: int)
    requires events != [] && HoldBatch(db, before, stream, events[..|events| - 1], receivedAt)
    requires after == before || after == Insert(before, stream, events[|events| - 1], receivedAt)
    ensures HoldBatch(db, after, stream, events, receivedAt)
  {
    assert events == events[..|events| - 1] + [events[|events| - 1]];
    assert forall i | 0 <= i < |before.rows| :: after.rows[i] == before.rows[i];
    assert after.rows[..|db.rows|] == before.rows[..|db.rows|];
  }

  /** The rows a batch adds hold its events, of its stream, with the time they were received. */
  lemma {:induction false} AddedRowsHoldTheBatch(db: Db, stream: Stream, events: seq<Event>, receivedAt: int, highest: nat)
    requires IngestAll(db, stream, events, receivedAt, highest).Ok?
    ensures HoldBatch(db, IngestAll(db, stream, events, receivedAt, highest).value, stream, events, receivedAt)
  {
    if events == [] {
      assert db.rows[..|db.rows|] == db.rows;
    } else {
      var front, last := events[..|events| - 1], events[|events| - 1];
      AddedRowsHoldTheBatch(db, stream, front, receivedAt, highest);
      var before := IngestAll(db, stream, front, receivedAt, highest).value;
      var after := IngestAll(db, stream, events, receivedAt, highest).value;
      assert after == before || after == Insert(before, stream, last, receivedAt);
      hide *;
      OneMoreRow(db, before, after, stream, events, receivedAt);
    }
  }

  /** What an accepted batch adds; a refused one adds nothing. */
  lemma BatchAddsItsEvents(db: Db, stream: Stream, batch: Batch, receivedAt: int)
    ensures var (after, result) := AfterIngest(db, stream, batch, receivedAt);
      && (result.Err? ==> after == db)
      && |db.rows| <= |after.rows| && after.rows[..|db.rows|] == db.rows && after.cursors == db.cursors
      && (forall other | other != stream :: Highest(after, other) == Highest(db, other))
      && (result.Ok? ==> Highest(after, stream) == result.value)
      && forall i | |db.rows| <= i < |after.rows| ::
           && after.rows[i].stream == stream && after.rows[i].event in batch.events && after.rows[i].receivedAt == receivedAt
  {
    var result := IngestAll(Begun(db, stream), stream, batch.events, receivedAt, Highest(db, stream));
    if result.Ok? {
      AddedRowsHoldTheBatch(Begun(db, stream), stream, batch.events, receivedAt, Highest(db, stream));
    }
    hide IngestAll;
  }

  /** A new event is stored as the next one of the plugin's stream for its node, with what the plugin sent. */
  lemma PublishedRowHoldsTheSource(db: Db, plugin: string, source: Published, receivedAt: int, maximum: nat)
    requires PublishEvent(db, plugin, source, receivedAt, maximum).Ok?
    requires FindId(db.rows, PluginEventId(plugin, source.sourceId)).None?
    ensures var after := PublishEvent(db, plugin, source, receivedAt, maximum).value;
            var stream := PluginStream(plugin, source.node);
      && |after.rows| == |db.rows| + 1 && after.rows[..|db.rows|] == db.rows
      && stream.node == source.node
      && Highest(after, stream) == Highest(db, stream) + 1 && Highest(after, stream) <= maximum
      && (forall other | other != stream :: Highest(after, other) == Highest(db, other))
      && var row := after.rows[|db.rows|];
         && row.rowId == db.nextRow && row.stream == stream && row.receivedAt == receivedAt
         && row.event.sequence == Highest(db, stream) + 1 && row.event.id == PluginEventId(plugin, source.sourceId)
         && row.event.kind == source.kind && row.event.observedAt == source.observedAt
         && row.event.payload == source.payload
  {
    hide Clashes, FindId;
  }

  /** The row holds an event of the plugin as it was sent. */
  predicate HoldsSource(row: Row, plugin: string, source: Published, receivedAt: int) {
    && row.stream == PluginStream(plugin, source.node) && row.receivedAt == receivedAt
    && row.event.id == PluginEventId(plugin, source.sourceId) && row.event.kind == source.kind
    && row.event.observedAt == source.observedAt && row.event.payload == source.payload
  }

  ghost predicate HoldsOne(row: Row, plugin: string, sources: seq<Published>, receivedAt: int) {
    exists source | source in sources :: HoldsSource(row, plugin, source, receivedAt)
  }

  ghost predicate HoldRequest(db: Db, after: Db, plugin: string, sources: seq<Published>, receivedAt: int) {
    && |db.rows| <= |after.rows| && after.rows[..|db.rows|] == db.rows && after.cursors == db.cursors
    && forall i | |db.rows| <= i < |after.rows| :: HoldsOne(after.rows[i], plugin, sources, receivedAt)
  }

  /** What a request adds are events it publishes. */
  lemma {:induction false} PublishedRowsHoldTheRequest(db: Db, plugin: string, sources: seq<Published>, receivedAt: int, maximum: nat)
    requires PublishAll(db, plugin, sources, receivedAt, maximum).Ok?
    ensures HoldRequest(db, PublishAll(db, plugin, sources, receivedAt, maximum).value, plugin, sources, receivedAt)
  {
    hide PluginStream, PluginEventId, Clashes, FindId;
    if sources == [] {
      assert db.rows[..|db.rows|] == db.rows;
    } else {
      var front, last := sources[..|sources| - 1], sources[|sources| - 1];
      PublishedRowsHoldTheRequest(db, plugin, front, receivedAt, maximum);
      var before := PublishAll(db, plugin, front, receivedAt, maximum).value;
      var after := PublishAll(db, plugin, sources, receivedAt, maximum).value;
      assert after == before
             || (after.rows == before.rows + [after.rows[|before.rows|]] && after.cursors == before.cursors
                 && HoldsSource(after.rows[|before.rows|], plugin, last, receivedAt));
      hide PublishAll, PublishEvent, HoldsSource;
      OneMorePublished(db, before, after, plugin, sources, receivedAt);
    }
  }

  lemma OneMorePublished(db: Db, before: Db, after: Db, plugin: string, sources: seq<Published>, receivedAt: int)
    requires sources != [] && HoldRequest(db, before, plugin, sources[..|sources| - 1], receivedAt)
    requires after == before
             || (|after.rows| == |before.rows| + 1 && after.rows == before.rows + [after.rows[|before.rows|]]
                 && after.cursors == before.cursors
                 && HoldsSource(after.rows[|before.rows|], plugin, sources[|sources| - 1], receivedAt))
    ensures HoldRequest(db, after, plugin, sources, receivedAt)
  {
    var front, last := sources[..|sources| - 1], sources[|sources| - 1];
    hide HoldsSource;
    assert sources == front + [last];
    forall i | |db.rows| <= i < |after.rows|
      ensures HoldsOne(after.rows[i], plugin, sources, receivedAt)
    {
      if i < |before.rows| {
        assert after.rows[i] == before.rows[i] && HoldsOne(before.rows[i], plugin, front, receivedAt);
        var source :| source in front && HoldsSource(before.rows[i], plugin, source, receivedAt);
        assert source in sources;
      } else {
        assert last in sources;
      }
    }
    assert after.rows[..|db.rows|] == before.rows[..|db.rows|];
  }

  // ---------------------------------------------------------------------------------------------
  // Batching does not matter
  // ---------------------------------------------------------------------------------------------

  /** The live events of one stream in ingestion order. */
  function StreamEvents(rows: seq<Row>, stream: Stream): seq<Event> {
    if rows == [] then []
    else
      var last := rows[|rows| - 1];
      StreamEvents(rows[..|rows| - 1], stream) + if last.stream == stream then [last.event] else []
  }

  /** The numbered events an agent holds for one stream. */
  ghost predicate Feed(feed: seq<Event>) {
    && Consecutive(feed, 1)
    && forall i, j | 0 <= i < j < |feed| :: feed[i].id != feed[j].id
  }

  /** The stream holds the first `highest` events of the feed, and no other stream holds one of its IDs. */
  ghost predicate Mirrors(db: Db, stream: Stream, feed: seq<Event>, highest: nat) {
    && highest <= |feed|
    && StreamEvents(db.rows, stream) == feed[..highest]
    && forall row | row in db.rows && row.stream != stream :: forall event | event in feed :: event.id != row.event.id
  }

  lemma {:induction false} FindInStream(rows: seq<Row>, stream: Stream, events: seq<Event>, sequence: nat)
    requires StreamEvents(rows, stream) == events && Consecutive(events, 1)
    ensures match FindPlace(rows, stream, sequence)
            case None => !(1 <= sequence <= |events|)
            case Some(row) => 1 <= sequence <= |events| && row.event == events[sequence - 1]
  {
    if rows != [] {
      var front, last := rows[..|rows| - 1], rows[|rows| - 1];
      var earlier := StreamEvents(front, stream);
      if last.stream == stream {
        assert events == earlier + [last.event];
        assert events[|events| - 1].sequence == |events|;
        PrefixIsConsecutive(earlier, last.event);
      } else {
        assert events == earlier;
      }
      hide Consecutive;
      FindInStream(front, stream, earlier, sequence);
    }
  }

  lemma PrefixIsConsecutive(front: seq<Event>, last: Event)
    requires Consecutive(front + [last], 1)
    ensures Consecutive(front, 1)
  {
    assert forall i | 0 <= i < |front| :: (front + [last])[i] == front[i];
  }

  lemma {:induction false} StreamEventsAreRows(rows: seq<Row>, stream: Stream)
    ensures forall event :: event in StreamEvents(rows, stream) <==>
      exists row | row in rows :: row.stream == stream && row.event == event
  {
    if rows != [] {
      var front, last := rows[..|rows| - 1], rows[|rows| - 1];
      StreamEventsAreRows(front, stream);
      assert forall row :: row in rows <==> row in front || row == last;
    }
  }

  /** One event of the feed: known places are replayed, the next place is stored, nothing else happens. */
  lemma MirroredEvent(db: Db, stream: Stream, feed: seq<Event>, highest: nat, index: nat, receivedAt: int, replay: bool)
    requires Feed(feed) && Mirrors(db, stream, feed, highest) && index <= highest && index < |feed|
    ensures var result := IngestEvent(db, stream, feed[index], receivedAt, replay);
            if index < highest then result == Ok(db)
            else result.Ok? && Mirrors(result.value, stream, feed, highest + 1)
  {
    var event := feed[index];
    var events := StreamEvents(db.rows, stream);
    FindInStream(db.rows, stream, events, event.sequence);
    StreamEventsAreRows(db.rows, stream);
    if index < highest {
      assert events[index] == event;
      var found := FindPlace(db.rows, stream, event.sequence).value;
      assert Clashes(db.rows, stream, event);
    } else {
      forall row | row in db.rows
        ensures row.event.id != event.id && !(row.stream == stream && row.event.sequence == event.sequence)
      {
        if row.stream == stream {
          assert row.event in events;
          var i :| 0 <= i < highest && feed[..highest][i] == row.event;
          assert feed[i] == row.event;
        } else {
          assert event in feed;
        }
      }
      var after := Insert(db, stream, event, receivedAt);
      assert after.rows[..|after.rows| - 1] == db.rows;
      assert feed[..highest + 1] == feed[..highest] + [event];
    }
  }

  /** The window of a feed an agent sends: events `from` up to but not including `to`. */
  datatype Window = Window(from: nat, to: nat, receivedAt: int)

  predicate WindowOf(window: Window, feed: seq<Event>) {
    window.from < window.to <= |feed|
  }

  function WindowBatch(window: Window, feed: seq<Event>): Batch
    requires WindowOf(window, feed)
  {
    Batch(window.from + 1, window.to, feed[window.from..window.to])
  }

  /** The cursor after a window, computed from the cursors alone. */
  function Reach(highest: nat, window: Window): nat {
    if window.from <= highest < window.to then window.to else highest
  }

  lemma FeedIsConsecutive(feed: seq<Event>)
    requires Feed(feed)
    ensures Consecutive(feed, 1)
  {
  }

  lemma SliceEnds(events: seq<Event>, from: nat, to: nat)
    requires from < to <= |events|
    ensures var slice := events[from..to]; slice[..|slice| - 1] == events[from..to - 1] && slice[|slice| - 1] == events[to - 1]
  {
  }

  /** The first `count` events of a window, when the stream mirrors `highest` events of the feed. */
  lemma {:induction false} MirroredWindow(db: Db, stream: Stream, feed: seq<Event>, highest: nat, window: Window, count: nat)
    requires Feed(feed) && Mirrors(db, stream, feed, highest)
    requires WindowOf(window, feed) && window.from <= highest && window.from + count <= window.to
    ensures var result := IngestAll(db, stream, feed[window.from..window.from + count], window.receivedAt, highest);
            && result.Ok?
            && Mirrors(result.value, stream, feed, if window.from + count > highest then window.from + count else highest)
  {
    hide Feed, Mirrors, IngestEvent;
    if count > 0 {
      var last := window.from + count - 1;
      var events, front := feed[window.from..last + 1], feed[window.from..last];
      SliceEnds(feed, window.from, last + 1);
      MirroredWindow(db, stream, feed, highest, window, count - 1);
      var before := IngestAll(db, stream, front, window.receivedAt, highest).value;
      MirroredEvent(before, stream, feed, if last > highest then last else highest, last, window.receivedAt,
                    feed[last].sequence <= highest);
    }
  }

  /** A window is accepted exactly when it starts no later than the next event, and then leaves the longer
      prefix of the feed. */
  lemma WindowIsMirrored(db: Db, stream: Stream, feed: seq<Event>, window: Window)
    requires Feed(feed) && Mirrors(db, stream, feed, Highest(db, stream)) && WindowOf(window, feed)
    ensures var highest := Highest(db, stream);
            var (after, result) := AfterIngest(db, stream, WindowBatch(window, feed), window.receivedAt);
            && Mirrors(after, stream, feed, Reach(highest, window))
            && Highest(after, stream) == Reach(highest, window)
            && result == if window.from <= highest then Ok(Reach(highest, window)) else Err(Gap)
  {
    hide Feed, Mirrors, IngestAll;
    var highest := Highest(db, stream);
    var batch := WindowBatch(window, feed);
    assert ValidBatch(batch) by {
      FeedIsConsecutive(feed);
    }
    var after := AfterIngest(db, stream, batch, window.receivedAt).0;
    if window.from <= highest {
      var begun := Begun(db, stream);
      OnlyRowsAreMirrored(db, begun, stream, feed, highest);
      MirroredWindow(begun, stream, feed, highest, window, window.to - window.from);
      assert feed[window.from..window.from + (window.to - window.from)] == batch.events;
      IngestAllKeepsStreams(begun, stream, batch.events, window.receivedAt, highest);
      var grown := IngestAll(begun, stream, batch.events, window.receivedAt, highest).value;
      OnlyRowsAreMirrored(grown, after, stream, feed, Reach(highest, window));
    }
  }

  lemma OnlyRowsAreMirrored(db: Db, other: Db, stream: Stream, feed: seq<Event>, highest: nat)
    requires Mirrors(db, stream, feed, highest) && other.rows == db.rows
    ensures Mirrors(other, stream, feed, highest)
  {
  }

  /** A batch of another stream that shares no event ID with the feed leaves the mirrored stream alone. */
  lemma ForeignBatchIsHarmless(db: Db, stream: Stream, feed: seq<Event>, other: Stream, batch: Batch, receivedAt: int)
    requires Consistent(db) && Mirrors(db, stream, feed, Highest(db, stream)) && other != stream
    requires forall event, mine | event in batch.events && mine in feed :: event.id != mine.id
    ensures var after := AfterIngest(db, other, batch, receivedAt).0;
            Highest(after, stream) == Highest(db, stream) && Mirrors(after, stream, feed, Highest(db, stream))
  {
    var (after, result) := AfterIngest(db, other, batch, receivedAt);
    if result.Ok? {
      var grown, reached := AcceptedBatch(db, other, batch, receivedAt);
      GrownRows(Begun(db, other), grown, other, batch.events);
      hide Consistent, Grown, Mirrors, AfterIngest, Carries;
      GrownForeignRows(db, grown, stream, feed, Highest(db, stream), other, batch.events);
      OnlyRowsAreMirrored(grown, after, stream, feed, Highest(db, stream));
    }
  }

  lemma GrownRows(db: Db, grown: Db, stream: Stream, events: seq<Event>)
    requires Grown(db, grown, stream, events)
    ensures |db.rows| <= |grown.rows| && grown.rows[..|db.rows|] == db.rows && grown.streams == db.streams
    ensures forall i | |db.rows| <= i < |grown.rows| :: grown.rows[i].stream == stream && grown.rows[i].event in events
  {
    hide Ordered, Distinct;
  }

  lemma GrownForeignRows(db: Db, grown: Db, stream: Stream, feed: seq<Event>, highest: nat, other: Stream, events: seq<Event>)
    requires Mirrors(db, stream, feed, highest) && other != stream
    requires |db.rows| <= |grown.rows| && grown.rows[..|db.rows|] == db.rows
    requires forall i | |db.rows| <= i < |grown.rows| :: grown.rows[i].stream == other && grown.rows[i].event in events
    requires forall event, mine | event in events && mine in feed :: event.id != mine.id
    ensures Mirrors(grown, stream, feed, highest)
  {
    ForeignRowsDoNotShow(db.rows, grown.rows, stream, other);
    hide StreamEvents;
    forall row | row in grown.rows && row.stream != stream
      ensures forall mine | mine in feed :: mine.id != row.event.id
    {
      var i :| 0 <= i < |grown.rows| && grown.rows[i] == row;
      assert i < |db.rows| ==> grown.rows[..|db.rows|][i] in db.rows;
    }
  }

  lemma {:induction false} ForeignRowsDoNotShow(rows: seq<Row>, grown: seq<Row>, stream: Stream, other: Stream)
    requires |rows| <= |grown| && grown[..|rows|] == rows && other != stream
    requires forall i | |rows| <= i < |grown| :: grown[i].stream == other
    ensures StreamEvents(grown, stream) == StreamEvents(rows, stream)
  {
    if |rows| == |grown| {
      assert grown == rows;
    } else {
      var front := grown[..|grown| - 1];
      assert front[..|rows|] == rows;
      ForeignRowsDoNotShow(rows, front, stream, other);
    }
  }

  /** What a center plugin publishes goes to a stream of its own. */
  lemma PublishedEventIsHarmless(db: Db, stream: Stream, feed: seq<Event>, plugin: string, source: Published, receivedAt: int,
                                 maximum: nat)
    requires Consistent(db) && Mirrors(db, stream, feed, Highest(db, stream))
    requires PublishEvent(db, plugin, source, receivedAt, maximum).Ok?
    requires PluginStream(plugin, source.node) != stream
    requires forall mine | mine in feed :: mine.id != PluginEventId(plugin, source.sourceId)
    ensures var after := PublishEvent(db, plugin, source, receivedAt, maximum).value;
      && Consistent(after) && Highest(after, stream) == Highest(db, stream)
      && Mirrors(after, stream, feed, Highest(db, stream))
  {
    hide PluginStream, PluginEventId, Consistent, Mirrors, Clashes, FindId;
    var other := PluginStream(plugin, source.node);
    if FindId(db.rows, PluginEventId(plugin, source.sourceId)).None? {
      var event := PublishedEvent(plugin, source, Highest(db, other) + 1);
      assert PublishEvent(db, plugin, source, receivedAt, maximum) == Ok(Appended(db, other, event, receivedAt));
      hide PublishEvent;
      AppendedIsHarmless(db, stream, feed, other, event, receivedAt);
    }
  }

  lemma AppendedIsHarmless(db: Db, stream: Stream, feed: seq<Event>, other: Stream, event: Event, receivedAt: int)
    requires Consistent(db) && Mirrors(db, stream, feed, Highest(db, stream)) && other != stream
    requires event.sequence == Highest(db, other) + 1 && !Clashes(db.rows, other, event)
    requires forall mine | mine in feed :: mine.id != event.id
    ensures var after := Appended(db, other, event, receivedAt);
      && Consistent(after) && Highest(after, stream) == Highest(db, stream)
      && Mirrors(after, stream, feed, Highest(db, stream))
  {
    AppendedIsConsistent(db, other, event, receivedAt);
    hide Consistent, Mirrors, Clashes;
    ForeignEventIsHarmless(db, stream, feed, Highest(db, stream), other, event, receivedAt);
    OnlyRowsAreMirrored(Insert(db, other, event, receivedAt), Appended(db, other, event, receivedAt), stream, feed,
                        Highest(db, stream));
  }

  lemma ForeignEventIsHarmless(db: Db, stream: Stream, feed: seq<Event>, highest: nat, other: Stream, event: Event, receivedAt: int)
    requires Mirrors(db, stream, feed, highest) && other != stream && forall mine | mine in feed :: mine.id != event.id
    ensures Mirrors(Insert(db, other, event, receivedAt), stream, feed, highest)
  {
    var after := Insert(db, other, event, receivedAt);
    assert after.rows[..|db.rows|] == db.rows;
    ForeignRowsDoNotShow(db.rows, after.rows, stream, other);
    assert forall each | each in after.rows :: each in db.rows || each.event == event;
    hide StreamEvents;
  }

  lemma {:induction false} PublishingIsHarmless(db: Db, stream: Stream, feed: seq<Event>, plugin: string, sources: seq<Published>,
                                                receivedAt: int, maximum: nat)
    requires Consistent(db) && Mirrors(db, stream, feed, Highest(db, stream))
    requires PublishesElsewhere(plugin, sources, stream, feed)
    ensures match PublishAll(db, plugin, sources, receivedAt, maximum)
            case Err(_) => true
            case Ok(after) => && Consistent(after) && Highest(after, stream) == Highest(db, stream)
                              && Mirrors(after, stream, feed, Highest(db, stream))
  {
    hide Consistent, Mirrors, PublishEvent, PluginStream, PluginEventId;
    if sources != [] {
      var front, last := sources[..|sources| - 1], sources[|sources| - 1];
      assert last in sources && forall source | source in front :: source in sources;
      PublishingIsHarmless(db, stream, feed, plugin, front, receivedAt, maximum);
      var first := PublishAll(db, plugin, front, receivedAt, maximum);
      if first.Ok? && PublishEvent(first.value, plugin, last, receivedAt, maximum).Ok? {
        PublishedEventIsHarmless(first.value, stream, feed, plugin, last, receivedAt, maximum);
      }
    }
  }

  ghost predicate PublishesElsewhere(plugin: string, sources: seq<Published>, stream: Stream, feed: seq<Event>) {
    forall source | source in sources ::
      && PluginStream(plugin, source.node) != stream
      && forall mine | mine in feed :: mine.id != PluginEventId(plugin, source.sourceId)
  }

  /** What an agent, other agents and the plugins of the center send, in any order. */
  datatype Sending =
    | Own(window: Window)
    | Foreign(other: Stream, batch: Batch, receivedAt: int)
    | Plugin(plugin: string, sources: seq<Published>, receivedAt: int, maximum: nat)

  ghost predicate Harmless(sending: Sending, stream: Stream, feed: seq<Event>) {
    match sending
    case Own(window) => WindowOf(window, feed)
    case Foreign(other, batch, _) =>
      other != stream && forall event, mine | event in batch.events && mine in feed :: event.id != mine.id
    case Plugin(plugin, sources, _, _) => PublishesElsewhere(plugin, sources, stream, feed)
  }

  ghost predicate AllHarmless(sendings: seq<Sending>, stream: Stream, feed: seq<Event>) {
    forall sending | sending in sendings :: Harmless(sending, stream, feed)
  }

  ghost function Sent(db: Db, stream: Stream, feed: seq<Event>, sendings: seq<Sending>): Db
    requires AllHarmless(sendings, stream, feed)
  {
    if sendings == [] then db
    else
      var last := sendings[|sendings| - 1];
      assert Harmless(last, stream, feed);
      var before := Sent(db, stream, feed, sendings[..|sendings| - 1]);
      match last
      case Own(window) => AfterIngest(before, stream, WindowBatch(window, feed), window.receivedAt).0
      case Foreign(other, batch, receivedAt) => AfterIngest(before, other, batch, receivedAt).0
      case Plugin(plugin, sources, receivedAt, maximum) => AfterPublish(before, plugin, sources, receivedAt, maximum)
  }

  function ReachAll(sendings: seq<Sending>): nat {
    if sendings == [] then 0
    else
      var before := ReachAll(sendings[..|sendings| - 1]);
      match sendings[|sendings| - 1]
      case Own(window) => Reach(before, window)
      case Foreign(_, _, _) => before
      case Plugin(_, _, _, _) => before
  }

  /** However a feed is cut into overlapping and repeated windows, and whatever other streams do meanwhile,
      the stream ends up with exactly the first `ReachAll` events of the feed, once each and in order. */
  lemma {:induction false} BatchingDoesNotMatter(db: Db, stream: Stream, feed: seq<Event>, sendings: seq<Sending>)
    requires Feed(feed) && Consistent(db) && Highest(db, stream) == 0 && Mirrors(db, stream, feed, 0)
    requires AllHarmless(sendings, stream, feed)
    ensures var after := Sent(db, stream, feed, sendings);
            && Consistent(after)
            && Highest(after, stream) == ReachAll(sendings) <= |feed|
            && StreamEvents(after.rows, stream) == feed[..ReachAll(sendings)]
            && Mirrors(after, stream, feed, ReachAll(sendings))
  {
    if sendings != [] {
      var front, last := sendings[..|sendings| - 1], sendings[|sendings| - 1];
      BatchingDoesNotMatter(db, stream, feed, front);
      assert Harmless(last, stream, feed);
      var before := Sent(db, stream, feed, front);
      match last
      case Own(window) =>
        WindowIsMirrored(before, stream, feed, window);
        IngestedIsConsistent(before, stream, WindowBatch(window, feed), window.receivedAt);
      case Foreign(other, batch, receivedAt) =>
        ForeignBatchIsHarmless(before, stream, feed, other, batch, receivedAt);
        IngestedIsConsistent(before, other, batch, receivedAt);
      case Plugin(plugin, sources, receivedAt, maximum) =>
        PublishingIsHarmless(before, stream, feed, plugin, sources, receivedAt, maximum);
    }
  }

  lemma IngestedIsConsistent(db: Db, stream: Stream, batch: Batch, receivedAt: int)
    requires Consistent(db)
    ensures Consistent(AfterIngest(db, stream, batch, receivedAt).0)
  {
    if AfterIngest(db, stream, batch, receivedAt).1.Ok? {
      var grown, reached := AcceptedBatch(db, stream, batch, receivedAt);
      GrownIsConsistent(Begun(db, stream), grown, stream, batch.events, reached);
    }
  }
}
