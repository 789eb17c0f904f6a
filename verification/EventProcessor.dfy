/** The consumer loop and the pruning run as programs over the steps of the event pipeline. */
module EventProcessor {
  import opened Outcomes
  import opened EventStore
  import opened EventStreams
  import opened EventPipeline

  datatype Outcome =
    | Drained
    | Waiting
    | Failed(rowId: nat)
    | LimitReached
    | Broken
    | Interrupted

  /** What the rest of the process does before an operation, whether the database answers the operation, and
      whether an effect succeeds. */
  datatype Moment = Moment(others: seq<Act>, crash: bool, answers: bool, succeeds: bool)

  /** Steps of other goroutines: they leave this consumer's rows in flight alone and do not crash. */
  predicate Elsewhere(act: Act, consumer: Consumer) {
    match act
    case Read(other, _) => other != consumer
    case Handle(other, _, _) => other != consumer
    case Advance(other) => other != consumer
    case Finish(other) => other != consumer
    case Crash => false
    case _ => true
  }

  predicate AllElsewhere(acts: seq<Act>, consumer: Consumer) {
    forall act | act in acts :: Elsewhere(act, consumer)
  }

  class Processor {
    const rules: Traffic.Rules
    var system: System
    ghost var trace: seq<Act>

    /** The state is the outcome of the steps performed so far. */
    ghost predicate Valid()
      reads this
    {
      system == DoAll(rules, START, trace)
    }

    constructor (rules: Traffic.Rules)
      ensures Valid() && this.rules == rules && trace == []
    {
      this.rules := rules;
      system := START;
      trace := [];
    }

    method Perform(act: Act)
      requires Valid()
      modifies this
      ensures Valid() && trace == old(trace) + [act] && system == Do(rules, old(system), act)
    {
      system := Do(rules, system, act);
      trace := trace + [act];
      assert trace[..|trace| - 1] == old(trace);
    }

    /** Other goroutines take some steps. */
    method Yield(acts: seq<Act>, consumer: Consumer)
      requires Valid() && AllElsewhere(acts, consumer)
      modifies this
      ensures Valid() && Aside(old(system), system, consumer) && (acts == [] ==> system == old(system))
    {
      for index := 0 to |acts|
        invariant Valid() && Aside(old(system), system, consumer) && (index == 0 ==> system == old(system))
      {
        EveryRunKeepsInvariant(rules, trace);
        assert Elsewhere(acts[index], consumer);
        StepAside(rules, system, acts[index], consumer);
        Perform(acts[index]);
      }
    }

    /** Lets the others act; then the operation goes on, fails, or dies with the whole process. */
    method Survive(moment: Moment, consumer: Consumer) returns (ended: Option<Outcome>)
      requires Valid() && AllElsewhere(moment.others, consumer)
      modifies this
      ensures Valid() && Progress(old(system), system, consumer)
      ensures ended == if moment.crash then Some(Interrupted) else if moment.answers then None else Some(Broken)
      ensures if moment.crash then consumer !in system.flights else Aside(old(system), system, consumer)
      ensures Quiet(moment) ==> system == old(system)
    {
      Yield(moment.others, consumer);
      if moment.crash {
        Perform(Crash);
        return Some(Interrupted);
      }
      return if moment.answers then None else Some(Broken);
    }

    /** The rows in flight are forgotten; the databases stay as they are. */
    method Drop(consumer: Consumer)
      requires Valid()
      modifies this
      ensures Valid() && consumer !in system.flights
      ensures system.history == old(system).history && system.traffic == old(system).traffic
      ensures NextRow(system, consumer) == NextRow(old(system), consumer)
    {
      Perform(Finish(consumer));
    }

    /** One pass of a standard consumer. It acknowledges each row before it processes the next one, and stops
        at the first row that fails. Any call to the database may fail and end the pass. The pass waits exactly when
        the cursor has a retry time in the future; it ends early only where the last moment it used says so. */
    method RunConsumer(consumer: Consumer, now: int, retryAt: int, batchSize: nat, batches: nat, moments: nat -> Moment)
      returns (outcome: Outcome, ghost used: nat)
      requires Valid() && IsStandard(consumer) && consumer !in system.flights && batchSize >= 1
      requires forall n :: AllElsewhere(moments(n).others, consumer)
      modifies this
      ensures Valid() && consumer !in system.flights && Progress(old(system), system, consumer)
      ensures outcome.Waiting? <==> Answered(moments, 0, 2) && Later(CursorOf(old(system).history.db, consumer).retryAfter, now)
      ensures outcome.Drained? ==>
        Passed(system, old(system).history.log, consumer) && AllProcessed(system, old(system).history.log, consumer)
      ensures outcome.LimitReached? ==> Count(system, consumer) == Count(old(system), consumer) + batches * batchSize
      ensures RowEnding(outcome) ==>
        used > 0 && Answered(moments, 0, used - 1) && EndsAt(rules, system, consumer, outcome, moments(used - 1))
      ensures !RowEnding(outcome) ==> Answered(moments, 0, used)
      ensures outcome.Failed? ==> StoppedAt(system, consumer, outcome.rowId, retryAt)
      ensures Undisturbed(moments) && Effective(rules, old(system), consumer)
              && !Later(CursorOf(old(system).history.db, consumer).retryAfter, now) ==>
        outcome == if Left(old(system), consumer) < batches * batchSize then Drained else LimitReached
    {
      hide Do, Invariant, DoAll, StoppedAt, Passed, AllProcessed, Count, Left, EndsAt, Effective, AllElsewhere, NextRow,
           SameFlight, Answered;
      var ended, retryAfter;
      ended, retryAfter, used := ReadRetryTime(consumer, moments);
      if ended.Some? {
        return ended.value, used;
      }
      if retryAfter.Some? && retryAfter.value > now {
        return Waiting, used;
      }
      ghost var checked := system;
      EveryRunKeepsInvariant(rules, trace);
      EffectiveCarriesOver(rules, old(system), system, consumer);
      CountsCarryOver(old(system), system, consumer);
      outcome, used := RunBatches(consumer, retryAt, batchSize, batches, moments, 2);
      AnsweredCompose(moments, 2, if RowEnding(outcome) then used - 1 else used);
      PassedPrefix(checked, system, old(system).history.log, consumer);
    }

    /** Makes sure there is a cursor and reads its retry time. */
    method ReadRetryTime(consumer: Consumer, moments: nat -> Moment)
      returns (ended: Option<Outcome>, retryAfter: Option<int>, ghost used: nat)
      requires Valid() && consumer !in system.flights && forall n :: AllElsewhere(moments(n).others, consumer)
      modifies this
      ensures Valid() && consumer !in system.flights && Progress(old(system), system, consumer)
      ensures 1 <= used <= 2 && Answered(moments, 0, used - 1)
      ensures if ended.Some? then RowEnding(ended.value) && !ended.value.Failed? else used == 2
      ensures ended.None? <==> Answered(moments, 0, 2)
      ensures ended.Some? ==> EndsAt(rules, system, consumer, ended.value, moments(used - 1))
      ensures ended.None? ==> retryAfter == CursorOf(old(system).history.db, consumer).retryAfter
                              && LastOf(system.history.db, consumer) == LastOf(old(system).history.db, consumer)
                              && Count(system, consumer) == Count(old(system), consumer)
      ensures Undisturbed(moments) ==> ended.None? && system.history.log == old(system).history.log
    {
      hide Do, Invariant, DoAll, Count, AllElsewhere, EndsAt;
      used, retryAfter := 1, None;
      ended := Survive(moments(0), consumer);
      if ended.Some? {
        EndsEarly(rules, system, consumer, moments(0));
        return;
      }
      EnsureIsQuiet(rules, system, consumer);
      Perform(Ensure(consumer));
      used := 2;
      ended := Survive(moments(1), consumer);
      EndsEarly(rules, system, consumer, moments(1));
      if ended.None? {
        retryAfter := system.history.db.cursors[consumer].retryAfter;
      }
    }

    /** Processes batch after batch until one drains the log. */
    method RunBatches(consumer: Consumer, retryAt: int, batchSize: nat, batches: nat, moments: nat -> Moment, start: nat)
      returns (outcome: Outcome, ghost used: nat)
      requires Valid() && IsStandard(consumer) && consumer !in system.flights && batchSize >= 1
      requires forall n :: AllElsewhere(moments(n).others, consumer)
      modifies this
      ensures Valid() && consumer !in system.flights && Progress(old(system), system, consumer)
      ensures RowEnding(outcome) || outcome.Drained? || outcome.LimitReached?
      ensures outcome.Drained? ==>
        Passed(system, old(system).history.log, consumer) && AllProcessed(system, old(system).history.log, consumer)
      ensures outcome.LimitReached? ==> Count(system, consumer) == Count(old(system), consumer) + batches * batchSize
      ensures RowEnding(outcome) ==>
        used > start && Answered(moments, start, used - 1) && EndsAt(rules, system, consumer, outcome, moments(used - 1))
      ensures !RowEnding(outcome) ==> Answered(moments, start, used)
      ensures outcome.Failed? ==> StoppedAt(system, consumer, outcome.rowId, retryAt)
      ensures Undisturbed(moments) && Effective(rules, old(system), consumer) ==>
        outcome == if Left(old(system), consumer) < batches * batchSize then Drained else LimitReached
    {
      hide Do, Invariant, DoAll, StoppedAt, Passed, AllProcessed, Count, Left, EndsAt, Effective, AllElsewhere, Answered,
           SameFlight, Undisturbed;
      ghost var log := system.history.log;
      ghost var calm := Undisturbed(moments) && Effective(rules, system, consumer);
      var clock := start;
      used := start;
      NothingAnswered(moments, start);
      for batchIndex := 0 to batches
        invariant Valid() && consumer !in system.flights && Progress(old(system), system, consumer)
        invariant clock == used >= start && Answered(moments, start, clock)
        invariant Count(system, consumer) == Count(old(system), consumer) + batchIndex * batchSize
        invariant calm ==> Effective(rules, system, consumer) && system.history.log == log
        invariant calm ==> Left(system, consumer) == Left(old(system), consumer) - batchIndex * batchSize
      {
        ghost var before := system;
        NextMultiple(batchIndex, batchSize, batches);
        var drained, ended;
        clock, drained, ended := RunNextBatch(consumer, retryAt, batchSize, moments, clock);
        AnsweredCompose(moments, used, if ended.Some? then clock - 1 else clock);
        used := clock;
        if ended.Some? {
          return ended.value, used;
        }
        if drained {
          EveryRunKeepsInvariant(rules, trace);
          PassedPrefix(before, system, old(system).history.log, consumer);
          PassedRowsWereProcessed(rules, system, old(system).history.log, consumer);
          return Drained, used;
        }
        EffectiveCarriesOver(rules, before, system, consumer);
      }
      return LimitReached, used;
    }

    /** A batch, from the moment before it is read. */
    method RunNextBatch(consumer: Consumer, retryAt: int, batchSize: nat, moments: nat -> Moment, start: nat)
      returns (clock: nat, drained: bool, ended: Option<Outcome>)
      requires Valid() && IsStandard(consumer) && consumer !in system.flights
      requires forall n :: AllElsewhere(moments(n).others, consumer)
      modifies this
      ensures Valid() && consumer !in system.flights && Progress(old(system), system, consumer)
      ensures clock > start && Answered(moments, start, if ended.Some? then clock - 1 else clock)
      ensures ended.Some? ==> RowEnding(ended.value) && EndsAt(rules, system, consumer, ended.value, moments(clock - 1))
      ensures ended.Some? && ended.value.Failed? ==> StoppedAt(system, consumer, ended.value.rowId, retryAt)
      ensures ended.None? && drained ==> Passed(system, old(system).history.log, consumer)
      ensures ended.None? && !drained ==> Count(system, consumer) == Count(old(system), consumer) + batchSize
      ensures Undisturbed(moments) && Effective(rules, old(system), consumer) ==>
        && ended.None? && system.history.log == old(system).history.log
        && (drained <==> Left(old(system), consumer) < batchSize)
        && (!drained ==> Left(system, consumer) == Left(old(system), consumer) - batchSize)
    {
      hide Do, Invariant, DoAll, StoppedAt, Passed, Count, Left, EndsAt, Effective, AllElsewhere;
      EveryRunKeepsInvariant(rules, trace);
      assert Undisturbed(moments) ==> Quiet(moments(start)) && moments(start).answers;
      CountAndLeft(rules, system, consumer);
      clock, drained := start + 1, false;
      ended := Survive(moments(start), consumer);
      if ended.Some? {
        EndsEarly(rules, system, consumer, moments(start));
        return;
      }
      ghost var middle := system;
      clock, drained, ended := RunBatch(consumer, retryAt, batchSize, moments, clock);
      AnsweredCompose(moments, start + 1, if ended.Some? then clock - 1 else clock);
      if ended.None? {
        PassedPrefix(middle, system, old(system).history.log, consumer);
        EveryRunKeepsInvariant(rules, trace);
        CountAndLeft(rules, system, consumer);
      }
    }

    /** Reads a batch and processes it; a batch below the limit drains the log. */
    method RunBatch(consumer: Consumer, retryAt: int, batchSize: nat, moments: nat -> Moment, start: nat)
      returns (clock: nat, drained: bool, ended: Option<Outcome>)
      requires Valid() && IsStandard(consumer) && consumer !in system.flights
      requires forall n :: AllElsewhere(moments(n).others, consumer)
      modifies this
      ensures Valid() && consumer !in system.flights && Progress(old(system), system, consumer)
      ensures drained <==> Left(old(system), consumer) < batchSize
      ensures clock >= start && Answered(moments, start, if ended.Some? then clock - 1 else clock)
      ensures ended.Some? ==> clock > start && EndsAt(rules, system, consumer, ended.value, moments(clock - 1))
      ensures ended.Some? ==> RowEnding(ended.value)
      ensures ended.Some? && ended.value.Failed? ==> StoppedAt(system, consumer, ended.value.rowId, retryAt)
      ensures ended.None? && drained ==> Passed(system, old(system).history.log, consumer)
      ensures ended.None? ==>
        Count(system, consumer) == Count(old(system), consumer) + if drained then Left(old(system), consumer) else batchSize
      ensures Undisturbed(moments) && Effective(rules, old(system), consumer) ==>
        ended.None? && system.history.log == old(system).history.log
    {
      hide Do, Invariant, DoAll, StoppedAt, AllElsewhere, NextRow, Count, EndsAt, Effective, Left, Undisturbed, RowEnds,
           SameFlight, Quiet, Answered, InFlight;
      var batch := ReadBatch(consumer, batchSize);
      assert batch[0..] == batch;
      ghost var read := system;
      CountsCarryOver(old(system), read, consumer);
      drained := |batch| < batchSize;
      clock, ended := start, None;
      NothingAnswered(moments, start);
      ghost var calm := Undisturbed(moments) && Effective(rules, old(system), consumer);
      for index := 0 to |batch|
        invariant Valid() && InFlight(system, consumer, batch[index..]) && Progress(old(system), system, consumer)
        invariant ended == None && clock >= start && Answered(moments, start, clock)
        invariant Count(system, consumer) == Count(old(system), consumer) + index
        invariant calm ==> system.history.log == read.history.log
        invariant LastOf(system.history.db, consumer)
               == if index == 0 then LastOf(old(system).history.db, consumer) else batch[index - 1].rowId
      {
        ghost var before := clock;
        if calm {
          EveryRunKeepsInvariant(rules, trace);
          EffectiveCarriesOver(rules, old(system), system, consumer);
          CalmRowGoesOn(rules, system, consumer, batch[index..], moments, clock);
        }
        clock, ended := RunRow(consumer, retryAt, batch[index..], moments, clock);
        AnsweredCompose(moments, before, if ended.Some? then clock - 1 else clock);
        if ended.Some? {
          return;
        }
        assert batch[index..][1..] == batch[index + 1..];
      }
      ghost var done := system;
      Drop(consumer);
      CountsCarryOver(done, system, consumer);
    }

    /** Reads the next rows; fewer than the limit are all there are. */
    method ReadBatch(consumer: Consumer, batchSize: nat) returns (batch: seq<Row>)
      requires Valid() && IsStandard(consumer) && consumer !in system.flights
      modifies this
      ensures Valid() && InFlight(system, consumer, batch) && system.history == old(system).history
      ensures |batch| == if Left(old(system), consumer) < batchSize then Left(old(system), consumer) else batchSize
      ensures |batch| < batchSize ==> forall row | row in system.history.log ::
        row.rowId <= if batch == [] then LastOf(system.history.db, consumer) else batch[|batch| - 1].rowId
    {
      hide Invariant, DoAll, Handled, Acknowledged, BatchFor, Left;
      EveryRunKeepsInvariant(rules, trace);
      BatchIsNext(rules, system, consumer, batchSize);
      Perform(Read(consumer, batchSize));
      EveryRunKeepsInvariant(rules, trace);
      batch := system.flights[consumer].batch;
      if |batch| < batchSize {
        ShortBatchIsEverything(rules, system, consumer, batchSize);
      }
    }

    /** Processes and acknowledges the first row in flight, exactly as the two moments say. When a failure cannot be
        recorded, or a success cannot be acknowledged, the row is the next one again. */
    method RunRow(consumer: Consumer, retryAt: int, batch: seq<Row>, moments: nat -> Moment, start: nat)
      returns (clock: nat, ended: Option<Outcome>)
      requires Valid() && IsStandard(consumer) && batch != [] && InFlight(system, consumer, batch)
      requires forall n :: AllElsewhere(moments(n).others, consumer)
      modifies this
      ensures Valid() && Progress(old(system), system, consumer)
      ensures ended == RowEnds(rules, old(system), consumer, batch[0], moments(start), moments(start + 1))
      ensures start < clock <= start + 2 && Answered(moments, start, if ended.Some? then clock - 1 else clock)
      ensures ended.Some? ==> Closed(system, consumer, ended.value, moments(clock - 1))
      ensures ended.Some? && ended.value.Failed? ==>
        && ended.value.rowId == batch[0].rowId && StoppedAt(system, consumer, ended.value.rowId, retryAt)
        && CursorOf(system.history.db, consumer).failures == CursorOf(old(system).history.db, consumer).failures + 1
      ensures ended == Some(Broken) ==>
        && NextRow(system, consumer) == Some(batch[0].rowId)
        && CursorOf(system.history.db, consumer) == CursorOf(old(system).history.db, consumer)
      ensures ended.None? ==>
        && InFlight(system, consumer, batch[1..])
        && CursorOf(system.history.db, consumer) == Cursor(batch[0].rowId, 0, None, None)
        && Count(system, consumer) == Count(old(system), consumer) + 1
      ensures Quiet(moments(start)) && Quiet(moments(start + 1)) ==> system.history.log == old(system).history.log
    {
      hide Do, Invariant, DoAll, StoppedAt, AllElsewhere, NextRow, Count, Effect, Closed, Valid, SameFlight, Quiet;
      clock := start + 1;
      ended := HandleRow(consumer, retryAt, batch, moments(start));
      if ended.Some? {
        return;
      }
      clock := start + 2;
      ended := AcknowledgeRow(consumer, batch, moments(start + 1));
    }

    /** The first operation on a row: its effect, or the record of its failure. */
    method HandleRow(consumer: Consumer, retryAt: int, batch: seq<Row>, moment: Moment) returns (ended: Option<Outcome>)
      requires Valid() && IsStandard(consumer) && batch != [] && InFlight(system, consumer, batch)
      requires AllElsewhere(moment.others, consumer)
      modifies this
      ensures Valid() && Progress(old(system), system, consumer)
      ensures ended == HandlingEnds(rules, old(system), consumer, batch[0], moment)
      ensures ended.Some? ==> Closed(system, consumer, ended.value, moment)
      ensures ended.Some? && ended.value.Failed? ==>
        && ended.value.rowId == batch[0].rowId && StoppedAt(system, consumer, ended.value.rowId, retryAt)
        && CursorOf(system.history.db, consumer).failures == CursorOf(old(system).history.db, consumer).failures + 1
      ensures ended == Some(Broken) ==> NextRow(system, consumer) == Some(batch[0].rowId)
      ensures ended.None? ==> consumer in system.flights && system.flights[consumer] == Flight(batch, 1)
      ensures ended == Some(Broken) || ended.None? ==>
        && CursorOf(system.history.db, consumer) == CursorOf(old(system).history.db, consumer)
        && Count(system, consumer) == Count(old(system), consumer)
      ensures Quiet(moment) ==> system.history.log == old(system).history.log
    {
      hide Do, Invariant, DoAll, StoppedAt, AllElsewhere, NextRow, Count, Effect, Quiet;
      ended := Survive(moment, consumer);
      EveryRunKeepsInvariant(rules, trace);
      if ended == Some(Interrupted) {
        return;
      }
      ghost var before := system;
      FirstInFlightIsNext(rules, system, consumer);
      if ended.Some? {
        Drop(consumer);
        CountsCarryOver(before, system, consumer);
        return;
      }
      HandlingFirst(rules, system, consumer, batch, moment.succeeds, retryAt);
      Perform(Handle(consumer, moment.succeeds, retryAt));
      CountsCarryOver(before, system, consumer);
      if consumer !in system.flights {
        EndsWithFailure(rules, system, consumer, batch[0], moment);
        ended := Some(Failed(batch[0].rowId));
      }
    }

    /** The second operation on a row: its acknowledgement. */
    method AcknowledgeRow(consumer: Consumer, batch: seq<Row>, moment: Moment) returns (ended: Option<Outcome>)
      requires Valid() && IsStandard(consumer) && batch != []
      requires consumer in system.flights && system.flights[consumer] == Flight(batch, 1)
      requires AllElsewhere(moment.others, consumer)
      modifies this
      ensures Valid() && Progress(old(system), system, consumer)
      ensures ended == if moment.crash then Some(Interrupted) else if !moment.answers then Some(Broken) else None
      ensures ended.Some? ==> Closed(system, consumer, ended.value, moment)
      ensures ended == Some(Broken) ==>
        && NextRow(system, consumer) == Some(batch[0].rowId)
        && CursorOf(system.history.db, consumer) == CursorOf(old(system).history.db, consumer)
      ensures ended.None? ==>
        && InFlight(system, consumer, batch[1..])
        && CursorOf(system.history.db, consumer) == Cursor(batch[0].rowId, 0, None, None)
        && Count(system, consumer) == Count(old(system), consumer) + 1
      ensures Quiet(moment) ==> system.history.log == old(system).history.log
    {
      hide Do, Invariant, DoAll, AllElsewhere, NextRow, Count, Effect, Quiet;
      ended := Survive(moment, consumer);
      EveryRunKeepsInvariant(rules, trace);
      if ended == Some(Interrupted) {
        return;
      }
      FirstInFlightIsNext(rules, system, consumer);
      if ended.Some? {
        Drop(consumer);
        return;
      }
      AcknowledgingFirst(rules, system, consumer, batch);
      Perform(Advance(consumer));
    }

    /** The pass ended for the reason the moment gives, with nothing in flight. */
    ghost predicate Closed(system: System, consumer: Consumer, outcome: Outcome, moment: Moment) {
      consumer !in system.flights && RowEnding(outcome) && EndsAt(rules, system, consumer, outcome, moment)
    }

    method YieldPruning(acts: seq<Act>)
      requires Valid() && forall act | act in acts :: NotPruning(act)
      modifies this
      ensures Valid() && system.pruner == old(system).pruner
      ensures forall row | row in old(system).history.db.rows :: row in system.history.db.rows
    {
      hide Do, Invariant, DoAll;
      for index := 0 to |acts|
        invariant Valid() && system.pruner == old(system).pruner
        invariant forall row | row in old(system).history.db.rows :: row in system.history.db.rows
      {
        EveryRunKeepsInvariant(rules, trace);
        OthersLeaveThePruner(rules, system, acts[index]);
        Perform(acts[index]);
      }
    }

    /** Reads the standard cursors one by one, each at its own moment, and deletes below the least of them.
        A consumer without a cursor row ends the run before anything is deleted. */
    method PruneHotData(cutoff: int, others: nat -> seq<Act>) returns (minimum: Option<nat>)
      requires Valid() && system.pruner == Resting
      requires forall n, act | act in others(n) :: NotPruning(act)
      modifies this
      ensures Valid() && system.pruner == Resting
      ensures minimum.Some? ==>
                && (forall consumer | IsStandard(consumer) :: minimum.value <= LastOf(system.history.db, consumer))
                && (forall row | row in system.history.db.rows :: row.rowId > minimum.value || row.receivedAt >= cutoff)
      ensures forall row | row in old(system).history.db.rows && row !in system.history.db.rows ::
                minimum.Some? && row.rowId <= minimum.value && row.receivedAt < cutoff
      ensures forall row, consumer |
                row in system.history.log && row !in system.history.db.rows && IsStandard(consumer) ::
                row.rowId in Processed(system, consumer)
    {
      hide Invariant, DoAll, Handled, EventStreams.Next, Succeeded, Acknowledged;
      Perform(BeginPrune(cutoff));
      minimum := None;
      for index := 0 to |STANDARD|
        invariant Valid() && system.pruner == Reading(cutoff, STANDARD[index..], minimum)
        invariant index > 0 ==> minimum.Some?
        invariant forall row | row in old(system).history.db.rows :: row in system.history.db.rows
      {
        YieldPruning(others(index));
        SuffixStep(STANDARD, index);
        Perform(ReadCursor);
        if system.pruner.Resting? {
          minimum := None;
          ProcessedBeforePruned();
          return;
        }
        minimum := system.pruner.minimum;
      }
      YieldPruning(others(|STANDARD|));
      EveryRunKeepsInvariant(rules, trace);
      InvariantPrunesSafely(rules, system);
      DeleteIsBelowCursors(system);
      Perform(Delete);
      ProcessedBeforePruned();
    }

    lemma ProcessedBeforePruned()
      requires Valid()
      ensures forall row, consumer |
                row in system.history.log && row !in system.history.db.rows && IsStandard(consumer) ::
                row.rowId in Processed(system, consumer)
    {
      hide DoAll;
      forall row, consumer | row in system.history.log && row !in system.history.db.rows && IsStandard(consumer)
        ensures row.rowId in Processed(system, consumer)
      {
        PrunedRowsWereProcessed(rules, trace, row, consumer);
      }
    }
  }

  /** Steps of goroutines other than the pruner, short of a crash. */
  predicate NotPruning(act: Act) {
    !act.Crash? && !act.BeginPrune? && !act.ReadCursor? && !act.Delete?
  }

  lemma SuffixStep(names: seq<Consumer>, index: nat)
    requires index < |names|
    ensures names[index..] != [] && names[index..][0] == names[index] && names[index..][1..] == names[index + 1..]
  {
  }

  lemma ExtendedHolds(before: Db, after: Db)
    requires Extends(before, after)
    ensures forall row | row in before.rows :: row in after.rows
  {
    assert forall i | 0 <= i < |before.rows| :: after.rows[..|before.rows|][i] == after.rows[i];
  }

  lemma OthersLeaveThePruner(rules: Traffic.Rules, system: System, act: Act)
    requires Invariant(rules, system) && NotPruning(act)
    ensures Do(rules, system, act).pruner == system.pruner
    ensures forall consumer | consumer in system.history.db.cursors :: consumer in Do(rules, system, act).history.db.cursors
    ensures forall row | row in system.history.db.rows :: row in Do(rules, system, act).history.db.rows
  {
    hide Invariant, EventStreams.Next, Surviving, BatchFor, Effect, Processed, Added;
    match act
    case Arrive(step) =>
      if !step.Pruning? {
        InvariantIsTraced(rules, system);
        ArrivalExtends(system.history, step);
        ExtendedHolds(system.history.db, EventStreams.Next(system.history, step).db);
      }
    case _ =>
  }

  /** How an operation can end a pass. */
  predicate RowEnding(outcome: Outcome) {
    outcome.Failed? || outcome.Broken? || outcome.Interrupted?
  }

  predicate Later(time: Option<int>, now: int) {
    time.Some? && time.value > now
  }

  /** Nothing happens before the operation. */
  predicate Quiet(moment: Moment) {
    moment.others == [] && !moment.crash
  }

  ghost predicate Undisturbed(moments: nat -> Moment) {
    forall n :: Quiet(moments(n)) && moments(n).answers && moments(n).succeeds
  }

  /** Up to a moment every operation was answered. */
  ghost predicate Answered(moments: nat -> Moment, start: nat, end: int) {
    forall n: nat | start <= n < end :: !moments(n).crash && moments(n).answers
  }

  lemma NothingAnswered(moments: nat -> Moment, start: nat)
    ensures Answered(moments, start, start)
  {
  }

  lemma AnsweredCompose(moments: nat -> Moment, middle: nat, end: int)
    ensures forall start: nat | Answered(moments, start, middle) && Answered(moments, middle, end) ::
      Answered(moments, start, end)
  {
  }

  /** The effects of the whole log succeed. Only those of the traffic consumer are modelled. */
  ghost predicate Effective(rules: Traffic.Rules, system: System, consumer: Consumer) {
    consumer == TrafficConsumer ==> Effects(rules, system.history.log).Ok?
  }

  lemma EffectiveCarriesOver(rules: Traffic.Rules, before: System, after: System, consumer: Consumer)
    ensures after.history.log == before.history.log ==>
      (Effective(rules, after, consumer) <==> Effective(rules, before, consumer))
  {
  }

  /** How the first operation on a row ends a pass, if it does. */
  function HandlingEnds(rules: Traffic.Rules, system: System, consumer: Consumer, row: Row, moment: Moment): Option<Outcome> {
    if moment.crash then Some(Interrupted)
    else if !moment.answers then Some(Broken)
    else if !moment.succeeds || (consumer == TrafficConsumer && Effect(rules, system.traffic, row).Err?) then
      Some(Failed(row.rowId))
    else None
  }

  /** How the processing of a row ends, if it does not go on with the next one. */
  function RowEnds(rules: Traffic.Rules, system: System, consumer: Consumer, row: Row, first: Moment, second: Moment)
    : Option<Outcome>
  {
    if HandlingEnds(rules, system, consumer, row, first).Some? then HandlingEnds(rules, system, consumer, row, first)
    else if second.crash then Some(Interrupted)
    else if !second.answers then Some(Broken)
    else None
  }

  /** The last moment of a pass is the reason for its end. */
  ghost predicate EndsAt(rules: Traffic.Rules, system: System, consumer: Consumer, outcome: Outcome, moment: Moment) {
    match outcome
    case Interrupted => moment.crash
    case Broken => !moment.crash && !moment.answers
    case Failed(rowId) =>
      && !moment.crash && moment.answers
      && (!moment.succeeds
          || (consumer == TrafficConsumer
              && exists row | row in system.history.log :: row.rowId == rowId && Effect(rules, system.traffic, row).Err?))
    case _ => true
  }

  lemma EndsEarly(rules: Traffic.Rules, system: System, consumer: Consumer, moment: Moment)
    ensures moment.crash ==> EndsAt(rules, system, consumer, Interrupted, moment)
    ensures !moment.crash && !moment.answers ==> EndsAt(rules, system, consumer, Broken, moment)
  {
  }

  lemma EndsWithFailure(rules: Traffic.Rules, system: System, consumer: Consumer, row: Row, moment: Moment)
    requires !moment.crash && moment.answers && row in system.history.log
    requires !moment.succeeds || (consumer == TrafficConsumer && Effect(rules, system.traffic, row).Err?)
    ensures EndsAt(rules, system, consumer, Failed(row.rowId), moment)
  {
    hide Effect;
  }

  /** How many rows of the log the consumer has acknowledged, and how many it has not. */
  function Count(system: System, consumer: Consumer): nat {
    |Done(system.history.log, LastOf(system.history.db, consumer))|
  }

  function Left(system: System, consumer: Consumer): nat {
    |Unread(system.history.log, LastOf(system.history.db, consumer))|
  }

  lemma CountAndLeft(rules: Traffic.Rules, system: System, consumer: Consumer)
    requires Invariant(rules, system)
    ensures Count(system, consumer) + Left(system, consumer) == |system.history.log|
  {
    RowsAreBounded(system.history);
    OrderedSplits(system.history.log, LastOf(system.history.db, consumer));
  }

  lemma CountsCarryOver(before: System, after: System, consumer: Consumer)
    requires LastOf(after.history.db, consumer) == LastOf(before.history.db, consumer)
    ensures after.history.log == before.history.log ==>
      Count(after, consumer) == Count(before, consumer) && Left(after, consumer) == Left(before, consumer)
  {
  }

  lemma NextMultiple(index: nat, size: nat, batches: nat)
    requires index < batches
    ensures (index + 1) * size == index * size + size
    ensures (index + 1) * size <= batches * size
  {
  }

  ghost predicate InFlight(system: System, consumer: Consumer, batch: seq<Row>) {
    consumer in system.flights && system.flights[consumer] == Flight(batch, 0)
  }

  /** The log grew and the cursor did not move back. */
  ghost predicate Progress(before: System, after: System, consumer: Consumer) {
    && before.history.log <= after.history.log
    && LastOf(before.history.db, consumer) <= LastOf(after.history.db, consumer)
  }

  /** The consumer acknowledged every row of the log. */
  ghost predicate Passed(system: System, log: seq<Row>, consumer: Consumer) {
    forall row | row in log :: row.rowId <= LastOf(system.history.db, consumer)
  }

  /** The consumer processed every row of the log. */
  ghost predicate AllProcessed(system: System, log: seq<Row>, consumer: Consumer) {
    forall row | row in log :: row.rowId in Processed(system, consumer)
  }

  lemma PassedRowsWereProcessed(rules: Traffic.Rules, system: System, log: seq<Row>, consumer: Consumer)
    requires Invariant(rules, system) && IsStandard(consumer)
    requires log <= system.history.log && Passed(system, log, consumer)
    ensures AllProcessed(system, log, consumer)
  {
    assert Tracks(system, consumer);
    hide Traced, Folded, PrunesSafely, Unread, Processed;
    forall row | row in log
      ensures row.rowId in Processed(system, consumer)
    {
      assert row in system.history.log;
    }
  }

  /** The failure is recorded at the row right after the cursor, with the time from which it is tried again. */
  ghost predicate StoppedAt(system: System, consumer: Consumer, rowId: nat, retryAt: int) {
    && consumer in system.history.db.cursors
    && system.history.db.cursors[consumer].failedAt == Some(rowId)
    && system.history.db.cursors[consumer].retryAfter == Some(retryAt)
    && NextRow(system, consumer) == Some(rowId)
  }

  /** What was passed or processed of a log was so of an earlier one. */
  lemma PassedPrefix(before: System, after: System, log: seq<Row>, consumer: Consumer)
    requires log <= before.history.log
    ensures Passed(after, before.history.log, consumer) ==> Passed(after, log, consumer)
    ensures AllProcessed(after, before.history.log, consumer) ==> AllProcessed(after, log, consumer)
  {
    assert forall row | row in log :: row in before.history.log;
    hide Processed;
  }

  lemma EnsureIsQuiet(rules: Traffic.Rules, system: System, consumer: Consumer)
    ensures var next := Do(rules, system, Ensure(consumer));
      && consumer in next.history.db.cursors
      && Aside(system, next, consumer)
      && next.history.log == system.history.log
  {
  }

  lemma HandlingFirst(rules: Traffic.Rules, system: System, consumer: Consumer, batch: seq<Row>, succeeds: bool,
                      retryAt: int)
    requires Invariant(rules, system) && IsStandard(consumer) && batch != [] && InFlight(system, consumer, batch)
    ensures var next := Do(rules, system, Handle(consumer, succeeds, retryAt));
            var fails := !succeeds || (consumer == TrafficConsumer && Effect(rules, system.traffic, batch[0]).Err?);
      && next.history.log == system.history.log
      && LastOf(next.history.db, consumer) == LastOf(system.history.db, consumer)
      && (consumer in next.flights <==> !fails)
      && if fails then
           && StoppedAt(next, consumer, batch[0].rowId, retryAt) && next.traffic == system.traffic
           && CursorOf(next.history.db, consumer).failures == CursorOf(system.history.db, consumer).failures + 1
         else
           next.flights[consumer] == Flight(batch, 1) && next.history == system.history
  {
    hide Invariant, Unread, Effect, Processed;
    FirstInFlightIsNext(rules, system, consumer);
    assert Do(rules, system, Handle(consumer, succeeds, retryAt)) == Handled(rules, system, consumer, succeeds, retryAt);
    hide Do;
  }

  lemma AcknowledgingFirst(rules: Traffic.Rules, system: System, consumer: Consumer, batch: seq<Row>)
    requires Invariant(rules, system) && IsStandard(consumer) && batch != []
    requires consumer in system.flights && system.flights[consumer] == Flight(batch, 1)
    ensures var next := Do(rules, system, Advance(consumer));
      && InFlight(next, consumer, batch[1..])
      && next.history.log == system.history.log
      && LastOf(system.history.db, consumer) <= LastOf(next.history.db, consumer)
      && CursorOf(next.history.db, consumer) == Cursor(batch[0].rowId, 0, None, None)
      && Count(next, consumer) == Count(system, consumer) + 1
  {
    hide Invariant, Unread, Done;
    FirstInFlightIsNext(rules, system, consumer);
    OneMoreIsDone(rules, system, consumer);
    assert Do(rules, system, Advance(consumer)) == Acknowledged(system, consumer);
    hide Do;
  }

  lemma OneMoreIsDone(rules: Traffic.Rules, system: System, consumer: Consumer)
    requires Invariant(rules, system) && NextRow(system, consumer).Some?
    ensures |Done(system.history.log, NextRow(system, consumer).value)| == Count(system, consumer) + 1
  {
    RowsAreBounded(system.history);
    AcknowledgeFirst(system.history.log, LastOf(system.history.db, consumer));
    hide Invariant, Done, Ordered;
  }

  /** The next row a consumer has to process. */
  function NextRow(system: System, consumer: Consumer): Option<nat> {
    var unread := Unread(system.history.log, LastOf(system.history.db, consumer));
    if unread == [] then None else Some(unread[0].rowId)
  }

  lemma FirstInFlightIsNext(rules: Traffic.Rules, system: System, consumer: Consumer)
    requires Invariant(rules, system) && IsStandard(consumer)
    requires consumer in system.flights && system.flights[consumer].batch != []
    ensures NextRow(system, consumer) == Some(system.flights[consumer].batch[0].rowId)
    ensures system.flights[consumer].batch[0].rowId > LastOf(system.history.db, consumer)
    ensures system.flights[consumer].batch[0] in system.history.log
    ensures Unread(system.history.log, LastOf(system.history.db, consumer)) != []
            && Unread(system.history.log, LastOf(system.history.db, consumer))[0] == system.flights[consumer].batch[0]
  {
    RowsAreBounded(system.history);
    OrderedSplits(system.history.log, LastOf(system.history.db, consumer));
    UnreadElements(system.history.log, LastOf(system.history.db, consumer));
    hide Traced, Folded, PrunesSafely;
    assert Tracks(system, consumer);
  }

  /** The effect of the next row succeeds, for the first time or after a crash, when those of the log do. */
  lemma NextEffectSucceeds(rules: Traffic.Rules, system: System, consumer: Consumer, batch: seq<Row>)
    requires Invariant(rules, system) && IsStandard(consumer) && batch != [] && InFlight(system, consumer, batch)
    requires Effective(rules, system, consumer)
    ensures consumer == TrafficConsumer ==> Effect(rules, system.traffic, batch[0]).Ok?
  {
    if consumer == TrafficConsumer {
      var log, last := system.history.log, LastOf(system.history.db, consumer);
      FirstInFlightIsNext(rules, system, consumer);
      RowsAreBounded(system.history);
      OrderedSplits(log, last);
      NextOfFold(rules, system);
    }
  }

  lemma NextOfFold(rules: Traffic.Rules, system: System)
    requires Folded(rules, system) && Effects(rules, system.history.log).Ok?
    requires var last := LastOf(system.history.db, TrafficConsumer);
      && Unread(system.history.log, last) != []
      && system.history.log == Done(system.history.log, last) + Unread(system.history.log, last)
    ensures Effect(rules, system.traffic, Unread(system.history.log, LastOf(system.history.db, TrafficConsumer))[0]).Ok?
  {
    var last := LastOf(system.history.db, TrafficConsumer);
    var done, unread := Done(system.history.log, last), Unread(system.history.log, last);
    hide Done, Unread, Effects, Effect;
    assert done + unread == (done + [unread[0]]) + unread[1..];
    EffectAfter(rules, done, unread[0], unread[1..], system.traffic);
  }

  lemma EffectAfter(rules: Traffic.Rules, done: seq<Row>, first: Row, rest: seq<Row>, table: Traffic.Table)
    requires Effects(rules, (done + [first]) + rest).Ok?
    requires Effects(rules, done) == Ok(table) || Effects(rules, done + [first]) == Ok(table)
    ensures Effect(rules, table, first).Ok?
  {
    hide Effect;
    PrefixSucceeds(rules, done + [first], rest);
    assert (done + [first])[..|done + [first]| - 1] == done;
    if Effects(rules, done) != Ok(table) {
      EffectIsIdempotent(rules, Effects(rules, done).value, first);
    }
  }

  lemma CalmRowGoesOn(rules: Traffic.Rules, system: System, consumer: Consumer, batch: seq<Row>, moments: nat -> Moment, n: nat)
    requires Invariant(rules, system) && IsStandard(consumer) && batch != [] && InFlight(system, consumer, batch)
    requires Effective(rules, system, consumer) && Undisturbed(moments)
    ensures Quiet(moments(n)) && Quiet(moments(n + 1))
    ensures RowEnds(rules, system, consumer, batch[0], moments(n), moments(n + 1)) == None
  {
    NextEffectSucceeds(rules, system, consumer, batch);
    hide Invariant, Effect, Effective, InFlight;
  }

  lemma {:induction false} PrefixSucceeds(rules: Traffic.Rules, first: seq<Row>, second: seq<Row>)
    requires Effects(rules, first + second).Ok?
    ensures Effects(rules, first).Ok?
  {
    hide Effect;
    if second == [] {
      assert first + second == first;
    } else {
      assert (first + second)[..|first + second| - 1] == first + second[..|second| - 1];
      PrefixSucceeds(rules, first, second[..|second| - 1]);
    }
  }

  /** A batch is as long as the limit allows. */
  lemma BatchIsNext(rules: Traffic.Rules, system: System, consumer: Consumer, limit: nat)
    requires Invariant(rules, system) && IsStandard(consumer)
    ensures |BatchFor(system.history.db, consumer, limit)|
         == if Left(system, consumer) < limit then Left(system, consumer) else limit
  {
    assert Tracks(system, consumer);
    hide Traced, Folded, PrunesSafely, Unread, Done;
  }

  lemma LastIsGreatest(rows: seq<Row>)
    requires Ordered(rows)
    ensures forall row | row in rows :: row.rowId <= rows[|rows| - 1].rowId
  {
  }

  /** A batch shorter than its limit holds every unread row of the log. */
  lemma ShortBatchIsEverything(rules: Traffic.Rules, system: System, consumer: Consumer, limit: nat)
    requires Invariant(rules, system) && IsStandard(consumer) && consumer in system.flights
    requires system.flights[consumer].batch == BatchFor(system.history.db, consumer, limit)
    requires |system.flights[consumer].batch| < limit
    ensures var batch := system.flights[consumer].batch;
            forall row | row in system.history.log ::
              row.rowId <= if batch == [] then LastOf(system.history.db, consumer) else batch[|batch| - 1].rowId
  {
    var log, last := system.history.log, LastOf(system.history.db, consumer);
    hide Traced, Folded, PrunesSafely, Unread, Done, Ordered;
    RowsAreBounded(system.history);
    OrderedSplits(log, last);
    assert Tracks(system, consumer);
    var batch := system.flights[consumer].batch;
    assert batch == Unread(log, last);
    hide Tracks, Bounded;
    LastIsGreatest(log);
    forall row | row in log
      ensures row.rowId <= if batch == [] then last else batch[|batch| - 1].rowId
    {
      assert batch != [] ==> batch[|batch| - 1] == log[|log| - 1];
      if batch == [] {
        var i :| 0 <= i < |log| && log[i] == row;
        assert Done(log, last)[i] == row;
      }
    }
  }

  /** Neither the consumer's rows in flight nor its cursor changed, nor what its effects depend on. */
  ghost predicate SameFlight(before: System, after: System, consumer: Consumer) {
    && (consumer in before.flights <==> consumer in after.flights)
    && (consumer in before.flights ==> after.flights[consumer] == before.flights[consumer])
    && CursorOf(after.history.db, consumer) == CursorOf(before.history.db, consumer)
    && (consumer in before.history.db.cursors ==> consumer in after.history.db.cursors)
    && (consumer == TrafficConsumer ==> after.traffic == before.traffic)
  }

  /** Others acted: the log may have grown, and the consumer is where it was. */
  ghost predicate Aside(before: System, after: System, consumer: Consumer) {
    SameFlight(before, after, consumer) && before.history.log <= after.history.log
    && Count(after, consumer) == Count(before, consumer)
  }

  lemma InvariantIsTraced(rules: Traffic.Rules, system: System)
    requires Invariant(rules, system)
    ensures Traced(system.history)
  {
  }

  lemma StepAside(rules: Traffic.Rules, system: System, act: Act, consumer: Consumer)
    requires Invariant(rules, system) && Elsewhere(act, consumer)
    ensures Aside(system, Do(rules, system, act), consumer)
  {
    StepElsewhere(rules, system, act, consumer);
    StepKeepsCount(rules, system, act, consumer);
    hide Do, Invariant;
  }

  lemma StepKeepsCount(rules: Traffic.Rules, system: System, act: Act, consumer: Consumer)
    requires Invariant(rules, system) && SameFlight(system, Do(rules, system, act), consumer)
    ensures Count(Do(rules, system, act), consumer) == Count(system, consumer)
  {
    hide Invariant, EventStreams.Next, Surviving, BatchFor, Handled, Acknowledged, Added, Done;
    if act.Arrive? && !act.step.Pruning? {
      InvariantIsTraced(rules, system);
      ArrivalExtends(system.history, act.step);
      CursorIsBounded(rules, system, consumer);
      ArrivalIsUnread(system.history, EventStreams.Next(system.history, act.step), LastOf(system.history.db, consumer));
    } else {
      OnlyArrivalsGrow(rules, system, act);
      hide Do;
    }
  }

  lemma CursorIsBounded(rules: Traffic.Rules, system: System, consumer: Consumer)
    requires Invariant(rules, system)
    ensures LastOf(system.history.db, consumer) < system.history.db.nextRow && system.history.db.nextRow >= 1
  {
    RowIdsStart(system.history);
    hide Traced, Tracks, Folded, PrunesSafely;
  }

  lemma OnlyArrivalsGrow(rules: Traffic.Rules, system: System, act: Act)
    ensures !(act.Arrive? && !act.step.Pruning?) ==> Do(rules, system, act).history.log == system.history.log
  {
    hide Surviving, BatchFor, EventPipeline.Outcome, Processed, EventStreams.Next;
  }

  lemma StepElsewhere(rules: Traffic.Rules, system: System, act: Act, consumer: Consumer)
    requires Invariant(rules, system) && Elsewhere(act, consumer)
    ensures SameFlight(system, Do(rules, system, act), consumer)
    ensures system.history.log <= Do(rules, system, act).history.log
  {
    hide Invariant, SameFlight, Handled, Acknowledged;
    match act
    case Arrive(step) => ArrivalElsewhere(rules, system, step, consumer);
    case Handle(other, succeeds, retryAt) => HandlingElsewhere(rules, system, other, succeeds, retryAt, consumer);
    case Advance(other) =>
      NothingElsewhere(system, consumer);
      if other in system.flights && 0 < system.flights[other].handled <= |system.flights[other].batch| {
        AcknowledgingElsewhere(system, other, consumer);
      }
    case _ =>
      hide Do;
      PlainStepElsewhere(rules, system, act, consumer);
  }

  lemma NothingElsewhere(system: System, consumer: Consumer)
    ensures SameFlight(system, system, consumer)
  {
  }

  lemma PlainStepElsewhere(rules: Traffic.Rules, system: System, act: Act, consumer: Consumer)
    requires Elsewhere(act, consumer) && !act.Arrive? && !act.Handle? && !act.Advance?
    ensures SameFlight(system, Do(rules, system, act), consumer)
    ensures system.history.log <= Do(rules, system, act).history.log
  {
    hide Surviving, BatchFor, Least;
  }

  lemma ArrivalElsewhere(rules: Traffic.Rules, system: System, step: Step, consumer: Consumer)
    requires Invariant(rules, system)
    ensures SameFlight(system, Do(rules, system, Arrive(step)), consumer)
    ensures system.history.log <= Do(rules, system, Arrive(step)).history.log
  {
    hide Invariant, EventStreams.Next, Added;
    if !step.Pruning? {
      InvariantIsTraced(rules, system);
      ArrivalExtends(system.history, step);
    }
  }

  lemma HandlingElsewhere(rules: Traffic.Rules, system: System, other: Consumer, succeeds: bool, retryAt: int,
                          consumer: Consumer)
    requires other != consumer
    ensures var next := Handled(rules, system, other, succeeds, retryAt);
      && SameFlight(system, next, consumer)
      && next.history.log == system.history.log
      && next.pruner == system.pruner
      && forall third | third in system.history.db.cursors :: third in next.history.db.cursors
  {
    hide Effect, Processed;
  }

  lemma AcknowledgingElsewhere(system: System, other: Consumer, consumer: Consumer)
    requires other in system.flights && 0 < system.flights[other].handled <= |system.flights[other].batch|
    requires other != consumer
    ensures var next := Acknowledged(system, other);
      && SameFlight(system, next, consumer)
      && next.history.log == system.history.log
      && next.pruner == system.pruner
      && forall third | third in system.history.db.cursors :: third in next.history.db.cursors
  {
  }
}
