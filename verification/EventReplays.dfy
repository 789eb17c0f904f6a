/** When a replayed event is stored again. */
module EventReplays {
  import opened Outcomes
  import opened EventStore
  import opened EventStreams

  // ---------------------------------------------------------------------------------------------
  // One batch
  // ---------------------------------------------------------------------------------------------

  /** Neither a live row nor an earlier event of the batch that is stored stands in the way of an event. */
  predicate Fresh(rows: seq<Row>, stream: Stream, events: seq<Event>, k: nat)
    requires k < |events|
    decreases k
  {
    && !Clashes(rows, stream, events[k])
    && forall j | 0 <= j < k && events[j].id == events[k].id :: !Fresh(rows, stream, events, j)
  }

  lemma {:induction false} FreshInPrefix(rows: seq<Row>, stream: Stream, events: seq<Event>, k: nat, n: nat)
    requires k < n <= |events|
    ensures Fresh(rows, stream, events[..n], k) <==> Fresh(rows, stream, events, k)
    decreases k
  {
    forall j | 0 <= j < k
      ensures Fresh(rows, stream, events[..n], j) <==> Fresh(rows, stream, events, j)
    {
      FreshInPrefix(rows, stream, events, j, n);
    }
  }

  /** With distinct IDs in the batch only live rows matter. */
  lemma DistinctIdsAreFresh(rows: seq<Row>, stream: Stream, events: seq<Event>, k: nat)
    requires k < |events| && forall i, j | 0 <= i < j < |events| :: events[i].id != events[j].id
    ensures Fresh(rows, stream, events, k) <==> !Clashes(rows, stream, events[k])
  {
  }

  /** The rows that were added carry events of the batch, and exactly the fresh ones. */
  ghost predicate AddsFresh(before: seq<Row>, after: seq<Row>, stream: Stream, events: seq<Event>) {
    && |before| <= |after| && after[..|before|] == before
    && (forall i | |before| <= i < |after| :: after[i].stream == stream && after[i].event in events)
    && (forall k | 0 <= k < |events| :: Carries(after, |before|, events[k]) <==> Fresh(before, stream, events, k))
  }

  lemma CarriedClashes(rows: seq<Row>, from: nat, stream: Stream, event: Event, last: Event)
    requires event.id == last.id
    ensures Carries(rows, from, event) ==> Clashes(rows, stream, last)
  {
    if Carries(rows, from, event) {
      var i :| from <= i < |rows| && rows[i].event == event;
      assert rows[i] in rows;
    }
  }

  /** The next event clashes with a row from before the batch, or with a fresh event of the same ID. */
  lemma ClashesAfterFront(before: seq<Row>, middle: seq<Row>, stream: Stream, events: seq<Event>, first: nat)
    requires events != [] && Consecutive(events, first) && AddsFresh(before, middle, stream, events[..|events| - 1])
    ensures !Clashes(middle, stream, events[|events| - 1]) <==> Fresh(before, stream, events, |events| - 1)
  {
    var front, last := events[..|events| - 1], events[|events| - 1];
    forall j | 0 <= j < |front|
      ensures Carries(middle, |before|, events[j]) <==> Fresh(before, stream, events, j)
    {
      FreshInPrefix(before, stream, events, j, |front|);
      assert front[j] == events[j];
    }
    assert forall i | 0 <= i < |before| :: middle[..|before|][i] == middle[i];
    if Clashes(middle, stream, last) {
      var row :| row in middle && (row.event.id == last.id || (row.stream == stream && row.event.sequence == last.sequence));
      var i :| 0 <= i < |middle| && middle[i] == row;
      if i < |before| {
        assert row in before;
      } else {
        var j :| 0 <= j < |front| && front[j] == row.event;
        assert Carries(middle, |before|, events[j]);
      }
    } else {
      assert forall row | row in before :: row in middle;
      forall j | 0 <= j < |front| && events[j].id == last.id
        ensures !Fresh(before, stream, events, j)
      {
        CarriedClashes(middle, |before|, stream, events[j], last);
      }
    }
  }

  /** At most one row was appended, carrying `last`. */
  ghost predicate AppendsAtMost(middle: seq<Row>, after: seq<Row>, stream: Stream, last: Event) {
    || after == middle
    || (|after| == |middle| + 1 && after[..|middle|] == middle && after[|middle|].stream == stream && after[|middle|].event == last)
  }

  lemma CarriedBefore(middle: seq<Row>, after: seq<Row>, stream: Stream, last: Event, from: nat, event: Event)
    requires from <= |middle| && AppendsAtMost(middle, after, stream, last) && event != last
    ensures Carries(after, from, event) <==> Carries(middle, from, event)
  {
    assert forall i | 0 <= i < |middle| :: after[i] == if after == middle then middle[i] else after[..|middle|][i];
    if Carries(middle, from, event) {
      var i :| from <= i < |middle| && middle[i].event == event;
      assert after[i].event == event;
    }
  }

  lemma CarriesLast(middle: seq<Row>, after: seq<Row>, stream: Stream, last: Event, from: nat)
    requires from <= |middle| && AppendsAtMost(middle, after, stream, last)
    requires forall i | from <= i < |middle| :: middle[i].event != last
    ensures Carries(after, from, last) <==> after != middle
  {
    if after != middle {
      assert after[|middle|].event == last;
    }
  }

  lemma AppendingFresh(before: seq<Row>, middle: seq<Row>, after: seq<Row>, stream: Stream, events: seq<Event>, first: nat)
    requires events != [] && Consecutive(events, first) && AddsFresh(before, middle, stream, events[..|events| - 1])
    requires AppendsAtMost(middle, after, stream, events[|events| - 1])
    requires Clashes(middle, stream, events[|events| - 1]) <==> after == middle
    ensures AddsFresh(before, after, stream, events)
  {
    var front, last := events[..|events| - 1], events[|events| - 1];
    ClashesAfterFront(before, middle, stream, events, first);
    hide Clashes, Carries;
    forall k | 0 <= k < |events|
      ensures Carries(after, |before|, events[k]) <==> Fresh(before, stream, events, k)
    {
      if k < |front| {
        FreshInPrefix(before, stream, events, k, |front|);
        assert front[k] == events[k] && events[k].sequence != last.sequence;
        CarriedBefore(middle, after, stream, last, |before|, events[k]);
      } else {
        assert forall event | event in front :: event.sequence != last.sequence;
        CarriesLast(middle, after, stream, last, |before|);
      }
    }
    hide Fresh;
    AppendingKeepsFront(before, middle, after, stream, events);
  }

  lemma AppendingKeepsFront(before: seq<Row>, middle: seq<Row>, after: seq<Row>, stream: Stream, events: seq<Event>)
    requires events != [] && AppendsAtMost(middle, after, stream, events[|events| - 1])
    requires |before| <= |middle| && middle[..|before|] == before
    requires forall i | |before| <= i < |middle| :: middle[i].stream == stream && middle[i].event in events[..|events| - 1]
    ensures |before| <= |after| && after[..|before|] == before
    ensures forall i | |before| <= i < |after| :: after[i].stream == stream && after[i].event in events
  {
    assert forall event | event in events[..|events| - 1] :: event in events;
    assert forall i | 0 <= i < |middle| :: after[i] == if after == middle then middle[i] else after[..|middle|][i];
    assert after[..|before|] == middle[..|before|];
  }

  lemma {:induction false} FreshEventsAreStored(db: Db, stream: Stream, events: seq<Event>, first: nat, receivedAt: int, highest: nat)
    requires Consecutive(events, first) && IngestAll(db, stream, events, receivedAt, highest).Ok?
    ensures AddsFresh(db.rows, IngestAll(db, stream, events, receivedAt, highest).value.rows, stream, events)
  {
    if events == [] {
      assert db.rows[..|db.rows|] == db.rows;
    } else {
      var front, last := events[..|events| - 1], events[|events| - 1];
      FreshEventsAreStored(db, stream, front, first, receivedAt, highest);
      var middle := IngestAll(db, stream, front, receivedAt, highest).value;
      var after := IngestAll(db, stream, events, receivedAt, highest).value;
      hide Clashes, AddsFresh;
      AppendingFresh(db.rows, middle.rows, after.rows, stream, events, first);
    }
  }

  /** An event of an accepted batch is stored, whether new or a replay, exactly when no live row has its ID or its
      place, and no earlier event of the batch with its ID is stored. */
  lemma StoredExactlyWhenFresh(db: Db, stream: Stream, batch: Batch, receivedAt: int, k: nat)
    requires AfterIngest(db, stream, batch, receivedAt).1.Ok? && k < |batch.events|
    ensures Carries(AfterIngest(db, stream, batch, receivedAt).0.rows, |db.rows|, batch.events[k])
       <==> Fresh(db.rows, stream, batch.events, k)
  {
    FreshEventsAreStored(Begun(db, stream), stream, batch.events, batch.first, receivedAt, Highest(db, stream));
    hide Fresh;
  }

  /** A replay of a batch with distinct IDs is stored a second time exactly when no live row has its ID or its place. */
  lemma ReplayIsStoredAgainExactlyWhen(db: Db, stream: Stream, batch: Batch, receivedAt: int, event: Event)
    requires AfterIngest(db, stream, batch, receivedAt).1.Ok? && event in batch.events
    requires forall i, j | 0 <= i < j < |batch.events| :: batch.events[i].id != batch.events[j].id
    requires event.sequence <= Highest(db, stream)
    ensures Carries(AfterIngest(db, stream, batch, receivedAt).0.rows, |db.rows|, event)
       <==> forall row | row in db.rows ::
              row.event.id != event.id && !(row.stream == stream && row.event.sequence == event.sequence)
  {
    var k :| 0 <= k < |batch.events| && batch.events[k] == event;
    StoredExactlyWhenFresh(db, stream, batch, receivedAt, k);
    DistinctIdsAreFresh(db.rows, stream, batch.events, k);
    hide Fresh, AfterIngest, Carries;
  }

  // ---------------------------------------------------------------------------------------------
  // Runs
  // ---------------------------------------------------------------------------------------------

  /** No place of any stream was ever stored twice. */
  ghost predicate OncePerPlace(log: seq<Row>) {
    forall i, j | 0 <= i < j < |log| :: !(log[i].stream == log[j].stream && log[i].event.sequence == log[j].event.sequence)
  }

  /** The step is a batch that is accepted and replays an event no live row stands in the way of. */
  ghost predicate StoresAgain(db: Db, step: Step) {
    step.Ingesting? && AfterIngest(db, step.stream, step.batch, step.receivedAt).1.Ok?
    && exists k :: 0 <= k < |step.batch.events| && step.batch.events[k].sequence <= Highest(db, step.stream)
                   && Fresh(db.rows, step.stream, step.batch.events, k)
  }

  /** New rows repeat a place exactly when one of them is at or below the cursor its stream had. */
  lemma RepeatsExactlyAtOrBelow(history: History, added: seq<Row>)
    requires Traced(history) && OncePerPlace(history.log) && OncePerPlace(added)
    requires forall row | row in added :: row.event.sequence >= 1
    ensures OncePerPlace(history.log + added)
       <==> forall row | row in added :: row.event.sequence > Highest(history.db, row.stream)
  {
    var log, all := history.log, history.log + added;
    if OncePerPlace(all) {
      forall row | row in added
        ensures row.event.sequence > Highest(history.db, row.stream)
      {
        StoredTwice(log, added, row);
        assert Stored(log, row.stream, row.event.sequence)
          <==> 1 <= row.event.sequence <= Highest(history.db, row.stream);
      }
    }
    if forall row | row in added :: row.event.sequence > Highest(history.db, row.stream) {
      NewPlacesStayOnce(history, added);
    }
  }

  lemma StoredTwice(log: seq<Row>, added: seq<Row>, row: Row)
    requires row in added
    ensures Stored(log, row.stream, row.event.sequence) ==> !OncePerPlace(log + added)
  {
    if Stored(log, row.stream, row.event.sequence) {
      var all := log + added;
      var j :| 0 <= j < |added| && added[j] == row;
      var earlier :| earlier in log && earlier.stream == row.stream && earlier.event.sequence == row.event.sequence;
      var i :| 0 <= i < |log| && log[i] == earlier;
      assert all[i] == log[i] && all[|log| + j] == added[j];
    }
  }

  lemma NewPlacesStayOnce(history: History, added: seq<Row>)
    requires Traced(history) && OncePerPlace(history.log) && OncePerPlace(added)
    requires forall row | row in added :: row.event.sequence > Highest(history.db, row.stream)
    ensures OncePerPlace(history.log + added)
  {
    var log, all := history.log, history.log + added;
    forall i, j | 0 <= i < j < |all|
      ensures !(all[i].stream == all[j].stream && all[i].event.sequence == all[j].event.sequence)
    {
      if i < |log| <= j {
        LoggedIsBelow(history, log[i]);
        assert added[j - |log|] in added;
      } else if |log| <= i {
        assert all[i] == added[i - |log|] && all[j] == added[j - |log|];
      }
    }
  }

  lemma LoggedIsBelow(history: History, row: Row)
    requires Traced(history) && row in history.log
    ensures row.event.sequence <= Highest(history.db, row.stream)
  {
    assert Stored(history.log, row.stream, row.event.sequence);
  }

  lemma DistinctTail(rows: seq<Row>, from: nat)
    requires from <= |rows| && Distinct(rows)
    ensures OncePerPlace(rows[from..])
  {
    forall i, j | 0 <= i < j < |rows[from..]|
      ensures !(rows[from..][i].stream == rows[from..][j].stream && rows[from..][i].event.sequence == rows[from..][j].event.sequence)
    {
      assert rows[from..][i] == rows[from + i] && rows[from..][j] == rows[from + j];
    }
  }

  lemma IngestedSequences(db: Db, stream: Stream, batch: Batch, receivedAt: int)
    requires Consistent(db) && AfterIngest(db, stream, batch, receivedAt).1.Ok?
    ensures var after := AfterIngest(db, stream, batch, receivedAt).0;
      && OncePerPlace(Added(db, after)) && (forall row | row in Added(db, after) :: row.event.sequence >= 1)
      && ((forall row | row in Added(db, after) :: row.event.sequence > Highest(db, row.stream))
          <==> !StoresAgain(db, Ingesting(stream, batch, receivedAt)))
  {
    var after := AfterIngest(db, stream, batch, receivedAt).0;
    FreshEventsAreStored(Begun(db, stream), stream, batch.events, batch.first, receivedAt, Highest(db, stream));
    IngestedIsConsistent(db, stream, batch, receivedAt);
    DistinctTail(after.rows, |db.rows|);
    hide AfterIngest, Fresh, Clashes;
    forall row | row in Added(db, after)
      ensures row.stream == stream && row.event in batch.events && row.event.sequence >= 1
    {
      var i :| 0 <= i < |Added(db, after)| && Added(db, after)[i] == row;
      assert after.rows[|db.rows| + i] == row;
    }
    AddedAreFresh(db, after, stream, batch.events);
  }

  lemma AddedAreFresh(db: Db, after: Db, stream: Stream, events: seq<Event>)
    requires AddsFresh(db.rows, after.rows, stream, events)
    ensures (forall row | row in Added(db, after) :: row.event.sequence > Highest(db, row.stream))
       <==> !exists k :: 0 <= k < |events| && events[k].sequence <= Highest(db, stream) && Fresh(db.rows, stream, events, k)
  {
    hide Fresh, Highest, AddsFresh;
    forall k | 0 <= k < |events| && events[k].sequence <= Highest(db, stream) && Fresh(db.rows, stream, events, k)
      ensures exists row :: row in Added(db, after) && row.event.sequence <= Highest(db, row.stream)
    {
      FreshIsAdded(db, after, stream, events, k);
    }
    forall row | row in Added(db, after) && row.event.sequence <= Highest(db, row.stream)
      ensures exists k :: 0 <= k < |events| && events[k].sequence <= Highest(db, stream) && Fresh(db.rows, stream, events, k)
    {
      var k := AddedIsFresh(db, after, stream, events, row);
    }
  }

  lemma FreshIsAdded(db: Db, after: Db, stream: Stream, events: seq<Event>, k: nat)
    requires AddsFresh(db.rows, after.rows, stream, events) && k < |events| && Fresh(db.rows, stream, events, k)
    ensures exists row :: row in Added(db, after) && row.stream == stream && row.event == events[k]
  {
    hide Fresh;
    assert Carries(after.rows, |db.rows|, events[k]);
    var i :| |db.rows| <= i < |after.rows| && after.rows[i].event == events[k];
    assert Added(db, after)[i - |db.rows|] == after.rows[i];
  }

  lemma AddedIsFresh(db: Db, after: Db, stream: Stream, events: seq<Event>, row: Row) returns (k: nat)
    requires AddsFresh(db.rows, after.rows, stream, events) && row in Added(db, after)
    ensures row.stream == stream && k < |events| && events[k] == row.event && Fresh(db.rows, stream, events, k)
  {
    hide Fresh;
    var i :| 0 <= i < |Added(db, after)| && Added(db, after)[i] == row;
    assert after.rows[|db.rows| + i] == row;
    k :| 0 <= k < |events| && events[k] == row.event;
    assert Carries(after.rows, |db.rows|, events[k]);
  }

  /** What is published stands above the cursor its stream had. */
  lemma {:induction false} PublishedStandsAbove(db: Db, plugin: string, sources: seq<Published>, receivedAt: int, maximum: nat)
    requires PublishAll(db, plugin, sources, receivedAt, maximum).Ok?
    ensures var after := PublishAll(db, plugin, sources, receivedAt, maximum).value;
      && |db.rows| <= |after.rows|
      && (forall stream :: Highest(db, stream) <= Highest(after, stream))
      && (forall i | |db.rows| <= i < |after.rows| :: after.rows[i].event.sequence > Highest(db, after.rows[i].stream))
  {
    if sources != [] {
      PublishedStandsAbove(db, plugin, sources[..|sources| - 1], receivedAt, maximum);
      hide Clashes, FindId, PublishedEvent, PluginStream;
    }
  }

  lemma PublishingStaysOnce(history: History, plugin: string, sources: seq<Published>, receivedAt: int, maximum: nat)
    requires Traced(history) && OncePerPlace(history.log)
    ensures OncePerPlace(Next(history, Publishing(plugin, sources, receivedAt, maximum)).log)
  {
    var after := AfterPublish(history.db, plugin, sources, receivedAt, maximum);
    PublishingKeepsTraced(history, plugin, sources, receivedAt, maximum);
    if PublishAll(history.db, plugin, sources, receivedAt, maximum).Ok? {
      PublishedStandsAbove(history.db, plugin, sources, receivedAt, maximum);
      var added := Added(history.db, after);
      assert Distinct(after.rows);
      DistinctTail(after.rows, |history.db.rows|);
      hide PublishAll, Highest, Traced;
      assert forall i | 0 <= i < |added| :: added[i] == after.rows[|history.db.rows| + i];
      NewPlacesStayOnce(history, added);
    } else {
      assert history.log + [] == history.log;
    }
  }

  /** A step stores a place a second time exactly when it is a batch that replays an event no live row stands in the
      way of; the caller can look for those rows before it sends the batch. */
  lemma StepStoresAgainExactlyWhen(history: History, step: Step)
    requires Traced(history) && OncePerPlace(history.log)
    ensures OncePerPlace(Next(history, step).log) <==> !StoresAgain(history.db, step)
  {
    match step
    case Ingesting(stream, batch, receivedAt) =>
      if AfterIngest(history.db, stream, batch, receivedAt).1.Ok? {
        IngestedSequences(history.db, stream, batch, receivedAt);
        RepeatsExactlyAtOrBelow(history, Added(history.db, AfterIngest(history.db, stream, batch, receivedAt).0));
        hide OncePerPlace, StoresAgain, AfterIngest, Traced;
      } else {
        assert history.log + [] == history.log;
      }
    case Publishing(plugin, sources, receivedAt, maximum) =>
      PublishingStaysOnce(history, plugin, sources, receivedAt, maximum);
    case Pruning(_, _) =>
  }

  lemma RepetitionStays(log: seq<Row>, added: seq<Row>)
    requires OncePerPlace(log + added)
    ensures OncePerPlace(log)
  {
    assert forall i | 0 <= i < |log| :: (log + added)[i] == log[i];
  }

  lemma LogsGrow(history: History, step: Step)
    ensures exists added :: Next(history, step).log == history.log + added
  {
    hide AfterIngest, AfterPublish;
    match step
    case Ingesting(stream, batch, receivedAt) =>
      assert Next(history, step).log == history.log + Added(history.db, AfterIngest(history.db, stream, batch, receivedAt).0);
    case Publishing(plugin, sources, receivedAt, maximum) =>
      assert Next(history, step).log
          == history.log + Added(history.db, AfterPublish(history.db, plugin, sources, receivedAt, maximum));
    case Pruning(_, _) => assert Next(history, step).log == history.log + [];
  }

  /** A run stores no place twice exactly when none of its steps replays an event that no live row stands in the way
      of, as happens to an event only once it was pruned. */
  lemma {:induction false} NothingIsStoredTwiceExactlyWhen(steps: seq<Step>)
    ensures OncePerPlace(Run(EMPTY, steps).log)
       <==> forall i | 0 <= i < |steps| :: !StoresAgain(Run(EMPTY, steps[..i]).db, steps[i])
  {
    if steps != [] {
      var front, last := steps[..|steps| - 1], steps[|steps| - 1];
      var history := Run(EMPTY, front);
      NothingIsStoredTwiceExactlyWhen(front);
      EveryRunIsTraced(front);
      assert forall i | 0 <= i < |front| :: front[..i] == steps[..i];
      assert forall i | 0 <= i < |steps| :: (i < |front| ==> steps[i] == front[i] && steps[..i] == front[..i])
                                            && (i == |front| ==> steps[i] == last && steps[..i] == front);
      hide StoresAgain, Next, OncePerPlace, Traced;
      if OncePerPlace(history.log) {
        StepStoresAgainExactlyWhen(history, last);
      } else {
        LogsGrow(history, last);
        var added :| Next(history, last).log == history.log + added;
        if OncePerPlace(history.log + added) {
          RepetitionStays(history.log, added);
        }
      }
    }
  }
}
