/** The archiver: closed days are written to files step by step, hot records are pruned, old archives expire.
    Access events may be stored before any step, any step may fail, and the process may die before any step. */
module AccessArchiver {
  import opened Outcomes
  import opened AccessTables

  datatype Fate = Go | Fail | Die

  /** What is stored before a step, and how the step goes. */
  datatype Moment = Moment(arrivals: seq<Access>, fate: Fate)

  datatype Op =
    | Prepare | HashDestination | HashBackup | RemoveIncomplete | RestoreBackup | SyncRestored
    | OpenExisting | Visit | SyncTemporary | RemoveStale | Preserve | Publish | UndoPublish | SyncPublished
    | RecordArchive | UndoRemove | UndoRestore | UndoSync | RemoveBackup | SyncDone
    | ListPending | ReadCursor(consumer: nat) | DeleteHot | ListExpired | RemoveExpired | DeleteExpired

  type Plan = Op -> Moment

  datatype Outcome = Done | Refused | Changed | Broken | Dead

  ghost predicate Quiet(plan: Plan) {
    forall op :: plan(op) == Moment([], Go)
  }

  function Stopped(fate: Fate): Outcome {
    if fate.Die? then Dead else Broken
  }

  /** A file of the day has the content its archive recorded. */
  predicate Matching(files: Files, path: Path, content: seq<Record>) {
    path in files && files[path] == content
  }

  predicate Writable(tables: Tables, files: Files, day: int) {
    day in tables.archives ==>
      || Matching(files, Destination(day), Archived(tables, day))
      || Matching(files, Backup(day), Archived(tables, day))
  }

  /** With these files the day's archive can still be restored, or need not be. */
  ghost predicate Safe(world: World, files: Files, day: int) {
    day in world.expired || Restorable(world.(files := files), day)
  }

  ghost predicate SameArchivesBut(before: Tables, after: Tables, day: int) {
    forall other | other != day ::
      (other in before.archives <==> other in after.archives)
      && (other in before.archives ==> after.archives[other] == before.archives[other])
  }

  /** The day's archive now holds all that was stored for the day before, and is the one announced. */
  ghost predicate Recorded(before: World, after: World, candidate: Candidate) {
    var day := candidate.day;
    && day in after.tables.archives
    && after.tables.archives[day].count == candidate.count
    && after.tables.archives[day].maxId == candidate.maxId
    && Everything(before.tables, day) <= Archived(after.tables, day)
    && Matching(after.files, Destination(day), Archived(after.tables, day))
  }

  // ---------------------------------------------------------------------------------------------
  // Copying and visiting
  // ---------------------------------------------------------------------------------------------

  function LastId(rows: seq<Record>): nat {
    if rows == [] then 0 else rows[|rows| - 1].id
  }

  /** Copies an archive record by record, refusing one whose IDs do not rise strictly from 1. */
  method CopyArchive(content: seq<Record>) returns (ordered: bool, copied: seq<Record>, count: nat, maximumId: nat)
    ensures ordered <==> Ascending(content) && forall i | 0 <= i < |content| :: content[i].id >= 1
    ensures ordered ==> copied == content && count == |content| && maximumId == LastId(content)
  {
    ordered, copied, count, maximumId := true, [], 0, 0;
    while count < |content|
      invariant count <= |content| && copied == content[..count] && maximumId == LastId(copied) && ordered
      invariant Ascending(copied) && forall i | 0 <= i < |copied| :: 1 <= copied[i].id <= maximumId
    {
      var value := content[count];
      if value.id <= maximumId {
        if count > 0 {
          assert content[count - 1] == copied[count - 1];
        }
        return false, [], 0, 0;
      }
      copied := copied + [value];
      count := count + 1;
      maximumId := value.id;
    }
  }

  /** Visits the records of a day above an ID in the order of their IDs. */
  method VisitDay(tables: Tables, day: int, floor: nat)
    returns (visited: seq<Record>, count: nat, maximumId: nat)
    ensures visited == After(tables.rows, day, floor) && count == |visited| && maximumId == LastId(visited)
  {
    visited, count, maximumId := [], 0, 0;
    for index := 0 to |tables.rows|
      invariant visited == After(tables.rows[..index], day, floor) && count == |visited| && maximumId == LastId(visited)
    {
      var value := tables.rows[index];
      assert tables.rows[..index + 1][..index] == tables.rows[..index];
      if value.access.day == day && value.id > floor {
        visited := visited + [value];
        count := count + 1;
        maximumId := value.id;
      }
    }
    assert tables.rows[..|tables.rows|] == tables.rows;
  }

  predicate Lowest(day: int, days: set<int>) {
    day in days && forall other | other in days :: day <= other
  }

  lemma LowestExists(days: set<int>) returns (lowest: int)
    requires |days| > 0
    ensures Lowest(lowest, days)
  {
    assert exists day :: day in days by {
      assert (forall day :: day !in days) ==> days == {};
    }
    var some: int :| some in days;
    var rest := days - {some};
    assert days == rest + {some};
    if |rest| == 0 {
      lowest := some;
    } else {
      lowest := LowestExists(rest);
      if some < lowest {
        lowest := some;
      }
    }
  }

  /** The days of a set in rising order. */
  method InOrder(days: set<int>) returns (ordered: seq<int>)
    ensures forall day :: day in ordered <==> day in days
    ensures forall i, j | 0 <= i < j < |ordered| :: ordered[i] < ordered[j]
  {
    var rest := days;
    ordered := [];
    while |rest| > 0
      invariant rest <= days && forall day :: day in ordered <==> day in days - rest
      invariant forall i, j | 0 <= i < j < |ordered| :: ordered[i] < ordered[j]
      invariant forall i, day | 0 <= i < |ordered| && day in rest :: ordered[i] < day
      decreases |rest|
    {
      ghost var lowest := LowestExists(rest);
      assert lowest in rest && forall other | other in rest :: lowest <= other;
      var day :| day in rest && forall other | other in rest :: day <= other;
      ordered := ordered + [day];
      rest := rest - {day};
    }
  }

  ghost predicate SameArchives(before: World, after: World) {
    before.tables.archives == after.tables.archives && before.expired == after.expired
  }

  ghost predicate Copied(tables: Tables, day: int, copied: seq<Record>, count: nat, maximumId: nat) {
    copied == Archived(tables, day) && count == |copied| && maximumId == Floor(tables, day)
  }

  /** The announcement is what the tables hold now. */
  ghost predicate Current(tables: Tables, candidate: Candidate) {
    var all := Everything(tables, candidate.day);
    candidate.archived == ArchiveOf(tables, candidate.day) && candidate.count == |all| && candidate.maxId == LastId(all)
  }

  /** At some moment the temporary file held everything of the day, and what was announced. */
  ghost predicate Visited(since: World, visited: World, now: World, temporary: seq<Record>, candidate: Candidate) {
    && Invariant(visited) && Appended(since, visited) && Appended(visited, now)
    && temporary == Everything(visited.tables, candidate.day)
    && |temporary| == candidate.count && LastId(temporary) == candidate.maxId
  }

  lemma LastOfEverything(world: World, day: int)
    requires Invariant(world)
    ensures var waiting, floor := Waiting(world.tables, day), Floor(world.tables, day);
            LastId(Everything(world.tables, day)) == if LastId(waiting) > floor then LastId(waiting) else floor
  {
    var tables := world.tables;
    assert Sound(tables, day);
    AfterIsAscending(tables.rows, day, Floor(tables, day));
    var archived, waiting := Archived(tables, day), Waiting(tables, day);
    hide After, Ascending, Below;
    if waiting != [] {
      assert waiting[|waiting| - 1].id > Floor(tables, day);
    }
    assert archived + [] == archived;
  }

  lemma AppendedExtends(before: World, after: World)
    requires Appended(before, after)
    ensures Extended(before, after)
  {
  }

  lemma ExtendedByRecord(since: World, world: World, day: int, archive: Archive)
    requires Extended(since, world)
    ensures Extended(since, AfterRecord(world, day, archive))
  {
  }

  /** While a day's archive stays, everything of the day only grows at the end. */
  lemma EverythingGrows(before: World, after: World, day: int)
    requires Invariant(before) && Extended(before, after)
    requires ArchiveOf(after.tables, day) == ArchiveOf(before.tables, day)
    ensures Everything(after.tables, day) == Everything(before.tables, day) + OfDay(Arrivals(before, after), day)
  {
    var floor := Floor(before.tables, day);
    assert Sound(before.tables, day);
    FloorIsBelow(before.tables, day);
    FiltersSplit(before.tables.rows, Arrivals(before, after), day, floor);
    AllAbove(Arrivals(before, after), day, floor);
    hide After, OfDay, Invariant;
    assert Archived(before.tables, day) + (Waiting(before.tables, day) + OfDay(Arrivals(before, after), day))
        == Archived(before.tables, day) + Waiting(before.tables, day) + OfDay(Arrivals(before, after), day);
  }

  lemma EverythingVisited(before: World, after: World, day: int)
    requires Invariant(before) && Appended(before, after)
    ensures Everything(before.tables, day) <= Everything(after.tables, day)
  {
    EverythingGrows(before, after, day);
  }

  lemma RecordingCompletes(since: World, visited: World, now: World, candidate: Candidate, temporary: seq<Record>)
    requires Invariant(since) && Invariant(now) && Visited(since, visited, now, temporary, candidate)
    requires candidate.count >= 1 && Matching(now.files, Destination(candidate.day), temporary)
    ensures var archive := Archive(Destination(candidate.day), candidate.count, candidate.maxId, Digest(temporary));
            var next := AfterRecord(now, candidate.day, archive);
            && Invariant(next) && Extended(since, next) && Recorded(since, next, candidate)
            && SameArchivesBut(now.tables, next.tables, candidate.day)
  {
    var day := candidate.day;
    hide Invariant, Appended, Extended, Everything, Waiting, Floor;
    AppendedCompose(since, visited, now);
    AppendedExtends(since, now);
    EverythingVisited(since, visited, day);
    RecordingKeepsInvariant(visited, now, day);
    ExtendedByRecord(since, now, day, ArchiveFor(day, temporary));
  }

  lemma RecordedStays(since: World, recorded: World, now: World, candidate: Candidate)
    requires Recorded(since, recorded, candidate) && Appended(recorded, now)
    requires Matching(now.files, Destination(candidate.day), Archived(now.tables, candidate.day))
    ensures Recorded(since, now, candidate)
  {
    hide Everything;
  }

  lemma ChangedFiles(since: World, world: World, files: Files, day: int)
    requires Invariant(world) && Appended(since, world) && OnlyFilesOf(world.files, files, day)
    requires Safe(world, files, day)
    ensures Invariant(world.(files := files)) && Appended(since, world.(files := files))
  {
    ChangingFilesKeepsInvariant(world, files, day);
  }

  lemma SameArchivesAreSafe(before: World, after: World, files: Files, day: int)
    requires Safe(before, files, day) && SameArchives(before, after)
    ensures Safe(after, files, day)
  {
  }

  /** The query: one candidate for each closed day with waiting records, in the order of the days. */
  ghost predicate Announced(tables: Tables, today: int, candidates: seq<Candidate>) {
    && (forall i | 0 <= i < |candidates| :: candidates[i].day < today && Waiting(tables, candidates[i].day) != []
                                            && candidates[i] == CandidateFor(tables, candidates[i].day))
    && (forall i, j | 0 <= i < j < |candidates| :: candidates[i].day < candidates[j].day)
    && (forall day | day < today && Waiting(tables, day) != [] ::
          exists i :: 0 <= i < |candidates| && candidates[i].day == day)
  }

  lemma {:induction false} WaitingWitness(rows: seq<Record>, day: int, floor: nat)
    ensures After(rows, day, floor) != [] <==>
      exists i :: 0 <= i < |rows| && rows[i].access.day == day && rows[i].id > floor
  {
    if rows != [] {
      var front, back := rows[..|rows| - 1], rows[|rows| - 1];
      WaitingWitness(front, day, floor);
      if i :| 0 <= i < |rows| && rows[i].access.day == day && rows[i].id > floor {
        assert i < |front| ==> front[i] == rows[i];
      }
      if i :| 0 <= i < |front| && front[i].access.day == day && front[i].id > floor {
        assert rows[i] == front[i];
      }
    }
  }

  ghost predicate AllQuiet(plans: nat -> Plan) {
    forall n :: Quiet(plans(n))
  }

  ghost predicate AllWritable(tables: Tables, files: Files, today: int) {
    forall day | day < today && Waiting(tables, day) != [] :: Writable(tables, files, day)
  }

  /** The archive of every closed day holds all that was stored for the day before. */
  ghost predicate Closed(before: World, after: World, today: int) {
    forall day | day < today :: Everything(before.tables, day) <= Archived(after.tables, day)
  }

  /** Days that are not over have the archives and files they had. */
  ghost predicate OpenDaysKept(before: World, after: World, today: int) {
    forall day | day >= today ::
      && ArchiveOf(after.tables, day) == ArchiveOf(before.tables, day)
      && SameFile(before.files, after.files, Destination(day)) && SameFile(before.files, after.files, Backup(day))
  }

  lemma WritingKeepsOpenDays(start: World, before: World, after: World, candidates: seq<Candidate>, index: nat, today: int)
    requires Announced(start.tables, today, candidates) && index < |candidates|
    requires OpenDaysKept(start, before, today)
    requires SameArchivesBut(before.tables, after.tables, candidates[index].day)
    requires OnlyFilesOf(before.files, after.files, candidates[index].day)
    ensures OpenDaysKept(start, after, today)
  {
    hide Waiting;
  }

  lemma AwaitingKeepsOpenDays(start: World, after: World, today: int)
    requires SameArchives(start, after) && after.files == start.files
    ensures OpenDaysKept(start, after, today)
  {
  }

  lemma OpenDaysCompose(first: World, second: World, third: World, today: int)
    requires OpenDaysKept(first, second, today) && OpenDaysKept(second, third, today)
    ensures OpenDaysKept(first, third, today)
  {
  }

  /** The days that are not among the first candidates have the archive and the files they had. */
  ghost predicate Untouched(start: World, now: World, candidates: seq<Candidate>, index: nat)
    requires index <= |candidates|
  {
    forall day | (forall i | 0 <= i < index :: candidates[i].day != day) ::
      && ArchiveOf(now.tables, day) == ArchiveOf(start.tables, day)
      && SameFile(start.files, now.files, Destination(day)) && SameFile(start.files, now.files, Backup(day))
  }

  predicate SameFile(before: Files, after: Files, path: Path) {
    (path in before <==> path in after) && (path in before ==> after[path] == before[path])
  }

  /** The first candidates have been archived. */
  ghost predicate Progressed(start: World, now: World, candidates: seq<Candidate>, index: nat)
    requires index <= |candidates|
  {
    && Extended(start, now) && Untouched(start, now, candidates, index)
    && forall i | 0 <= i < index :: Everything(start.tables, candidates[i].day) <= Archived(now.tables, candidates[i].day)
  }

  ghost predicate WritableUpTo(start: World, candidates: seq<Candidate>, index: nat)
    requires index <= |candidates|
  {
    forall i | 0 <= i < index :: Writable(start.tables, start.files, candidates[i].day)
  }

  lemma NothingYet(start: World, candidates: seq<Candidate>)
    ensures Progressed(start, start, candidates, 0) && WritableUpTo(start, candidates, 0)
  {
  }

  lemma CandidateIsReady(start: World, now: World, candidates: seq<Candidate>, index: nat, today: int)
    requires Invariant(start) && index < |candidates|
    requires Progressed(start, now, candidates, index) && Announced(start.tables, today, candidates)
    ensures var candidate := candidates[index];
      && candidate.archived == ArchiveOf(now.tables, candidate.day) && candidate.count >= 1
      && Writable(now.tables, now.files, candidate.day) == Writable(start.tables, start.files, candidate.day)
      && Everything(start.tables, candidate.day) <= Everything(now.tables, candidate.day)
      && (now.stored == start.stored ==> Current(now.tables, candidate))
  {
    var candidate := candidates[index];
    var day := candidate.day;
    CandidateIsUntouched(start, now, candidates, index, today);
    assert Waiting(start.tables, day) != [] && candidate == CandidateFor(start.tables, day);
    hide Announced, Progressed, Waiting, Extended;
    CandidateIsCurrent(start, day);
    DayGrew(start, now, day);
  }

  lemma CandidateIsUntouched(start: World, now: World, candidates: seq<Candidate>, index: nat, today: int)
    requires index < |candidates|
    requires Progressed(start, now, candidates, index) && Announced(start.tables, today, candidates)
    ensures var day := candidates[index].day;
      && ArchiveOf(now.tables, day) == ArchiveOf(start.tables, day) && Extended(start, now)
      && Writable(now.tables, now.files, day) == Writable(start.tables, start.files, day)
  {
    hide Everything, Waiting, Extended;
    assert forall i | 0 <= i < index :: candidates[i].day < candidates[index].day;
  }

  lemma CandidateIsCurrent(world: World, day: int)
    requires Invariant(world) && Waiting(world.tables, day) != []
    ensures Current(world.tables, CandidateFor(world.tables, day)) && CandidateFor(world.tables, day).count >= 1
  {
    LastOfEverything(world, day);
    assert Sound(world.tables, day);
    AfterIsAscending(world.tables.rows, day, Floor(world.tables, day));
    hide Invariant, After, Ascending, Below;
  }

  lemma DayGrew(start: World, now: World, day: int)
    requires Invariant(start) && Extended(start, now) && ArchiveOf(now.tables, day) == ArchiveOf(start.tables, day)
    ensures Everything(start.tables, day) <= Everything(now.tables, day)
    ensures now.stored == start.stored ==> Everything(start.tables, day) == Everything(now.tables, day)
  {
    EverythingGrows(start, now, day);
    hide Invariant, Everything;
    assert OfDay([], day) == [];
  }

  lemma ProgressedExtends(start: World, before: World, after: World, candidates: seq<Candidate>, index: nat)
    requires index <= |candidates| && Progressed(start, before, candidates, index) && Extended(before, after)
    ensures Extended(start, after)
  {
    ExtendedCompose(start, before, after);
  }

  lemma NextUntouched(start: World, before: World, after: World, candidates: seq<Candidate>, index: nat)
    requires index < |candidates| && Untouched(start, before, candidates, index)
    requires SameArchivesBut(before.tables, after.tables, candidates[index].day)
    requires OnlyFilesOf(before.files, after.files, candidates[index].day)
    ensures Untouched(start, after, candidates, index + 1)
  {
    forall day | forall i | 0 <= i < index + 1 :: candidates[i].day != day
      ensures ArchiveOf(after.tables, day) == ArchiveOf(start.tables, day)
      ensures SameFile(start.files, after.files, Destination(day)) && SameFile(start.files, after.files, Backup(day))
    {
      assert candidates[index].day != day;
      assert ArchiveOf(before.tables, day) == ArchiveOf(start.tables, day);
    }
  }

  lemma NextProgressed(start: World, before: World, after: World, candidates: seq<Candidate>, index: nat, today: int)
    requires index < |candidates| && Progressed(start, before, candidates, index)
    requires Announced(start.tables, today, candidates)
    requires Everything(start.tables, candidates[index].day) <= Everything(before.tables, candidates[index].day)
    requires SameArchivesBut(before.tables, after.tables, candidates[index].day)
    requires OnlyFilesOf(before.files, after.files, candidates[index].day)
    requires Extended(before, after) && Recorded(before, after, candidates[index])
    ensures Progressed(start, after, candidates, index + 1)
  {
    hide Everything, Waiting, Extended, Untouched, Invariant, OnlyFilesOf;
    ExtendedCompose(start, before, after);
    NextUntouched(start, before, after, candidates, index);
    hide SameArchivesBut;
    forall i | 0 <= i < index + 1
      ensures Everything(start.tables, candidates[i].day) <= Archived(after.tables, candidates[i].day)
    {
      if i < index {
        assert candidates[i].day < candidates[index].day;
        SameArchived(before.tables, after.tables, candidates[index].day, candidates[i].day);
      }
    }
  }

  lemma SameArchived(before: Tables, after: Tables, day: int, other: int)
    requires SameArchivesBut(before, after, day) && other != day
    ensures Archived(after, other) == Archived(before, other)
  {
  }

  lemma NextWritable(start: World, candidates: seq<Candidate>, index: nat)
    requires index < |candidates| && Writable(start.tables, start.files, candidates[index].day)
    ensures WritableUpTo(start, candidates, index) ==> WritableUpTo(start, candidates, index + 1)
  {
  }

  lemma NotAllWritable(start: World, candidates: seq<Candidate>, index: nat, today: int)
    requires index < |candidates| && Announced(start.tables, today, candidates)
    ensures AllWritable(start.tables, start.files, today) ==> Writable(start.tables, start.files, candidates[index].day)
  {
  }

  lemma AllAreClosed(start: World, now: World, candidates: seq<Candidate>, today: int)
    requires Announced(start.tables, today, candidates) && Progressed(start, now, candidates, |candidates|)
    ensures Closed(start, now, today) && Extended(start, now)
    ensures WritableUpTo(start, candidates, |candidates|) ==> AllWritable(start.tables, start.files, today)
  {
    hide Waiting, Writable;
    forall day | day < today
      ensures Everything(start.tables, day) <= Archived(now.tables, day)
    {
      if Waiting(start.tables, day) == [] {
        assert forall i | 0 <= i < |candidates| :: candidates[i].day != day;
        assert ArchiveOf(now.tables, day) == ArchiveOf(start.tables, day);
      }
    }
  }

  /** Archives and files changed for days before `before` only, and those days count as expired. */
  ghost predicate OnlyExpired(start: World, now: World, before: int) {
    && start.expired <= now.expired && (forall day | day in now.expired && day !in start.expired :: day < before)
    && (forall day | day >= before :: ArchiveOf(now.tables, day) == ArchiveOf(start.tables, day))
    && (forall day | day >= before ::
          SameFile(start.files, now.files, Destination(day)) && SameFile(start.files, now.files, Backup(day)))
    && now.tables.archives.Keys <= start.tables.archives.Keys
  }

  /** Rows were only added, with higher IDs. */
  ghost predicate Grew(before: Tables, after: Tables) {
    && before.rows <= after.rows && before.nextId <= after.nextId
    && forall i | |before.rows| <= i < |after.rows| :: after.rows[i].id >= before.nextId
  }

  lemma NothingGrew(tables: Tables)
    ensures Grew(tables, tables)
  {
  }

  lemma GrewCompose(first: Tables, second: Tables, third: Tables)
    requires Grew(first, second) && Grew(second, third)
    ensures Grew(first, third)
  {
    forall i | |first.rows| <= i < |third.rows|
      ensures third.rows[i].id >= first.nextId
    {
      assert i < |second.rows| ==> third.rows[i] == second.rows[i];
    }
  }

  lemma GrewWithoutArchives(first: Tables, second: Tables, third: Tables)
    requires Grew(first, second) && third.rows == second.rows && third.nextId == second.nextId
    ensures Grew(first, third)
  {
  }

  lemma AppendedGrew(before: World, after: World)
    requires Appended(before, after)
    ensures Grew(before.tables, after.tables)
  {
  }

  /** Records that arrive after a pruning are above every archive, so nothing left of the days kept is due. */
  lemma NothingLeftToPrune(before: World, written: World, now: World, cutoff: int, kept: int, row: Record)
    requires Invariant(written) && Invariant(before) && written == AfterPrune(before, cutoff)
    requires Grew(written.tables, now.tables) && row in now.tables.rows && row.access.day >= kept
    requires forall day | day >= kept :: ArchiveOf(now.tables, day) == ArchiveOf(written.tables, day)
    ensures !Deleted(row, now.tables, cutoff)
  {
    var day := row.access.day;
    assert Sound(written.tables, day) && ArchiveOf(now.tables, day) == ArchiveOf(written.tables, day);
    KeptExactly(before.tables.rows, before.tables, cutoff, row);
    FloorIsBelow(written.tables, day);
    hide Invariant, Kept, Sound;
    var i :| 0 <= i < |now.tables.rows| && now.tables.rows[i] == row;
    if i < |written.tables.rows| {
      assert written.tables.rows[i] == row;
    }
  }

  lemma NothingExpired(world: World, before: int)
    ensures OnlyExpired(world, world, before)
  {
  }

  lemma ExpiredCompose(first: World, second: World, third: World, reached: int, before: int)
    requires OnlyExpired(first, second, before) && OnlyExpired(second, third, reached) && reached <= before
    ensures OnlyExpired(first, third, before)
  {
  }

  lemma StoringExpiresNothing(start: World, world: World, before: int)
    requires SameArchives(start, world) && start.files == world.files
    ensures OnlyExpired(start, world, before)
  {
  }

  lemma FileExpires(start: World, world: World, day: int)
    requires Invariant(world) && OnlyExpired(start, world, day + 1)
    ensures var next := world.(files := world.files - {Destination(day)}, expired := world.expired + {day});
            Invariant(next) && OnlyExpired(start, next, day + 1)
  {
    ExpiringKeepsInvariant(world, day, world.files - {Destination(day)}, world.tables.archives);
  }

  lemma MetadataExpires(world: World, day: int)
    requires Invariant(world) && day in world.expired
    ensures var next := world.(tables := world.tables.(archives := world.tables.archives - {day}));
            Invariant(next) && OnlyExpired(world, next, day + 1)
  {
    ExpiringKeepsInvariant(world, day, world.files, world.tables.archives - {day});
    assert world.expired + {day} == world.expired;
  }

  /** The traffic, policy, access and network consumers. */
  const STANDARD_CONSUMERS := 4

  /** Every standard consumer has a cursor row when it is read. */
  predicate AllPresent(cursors: nat -> bool) {
    forall i | 0 <= i < STANDARD_CONSUMERS :: cursors(i)
  }

  datatype Cycle = Cycle(arrivals: seq<Access>, today: int, cutoff: int, expireBefore: int, cursors: nat -> bool,
                         listing: Plan, writing: nat -> Plan, expiring: nat -> Plan)

  /** No archived record of the days kept is due for deletion. */
  predicate NothingDue(tables: Tables, kept: int, cutoff: int) {
    forall row | row in tables.rows && row.access.day >= kept :: !Deleted(row, tables, cutoff)
  }

  lemma ExtendedGrew(before: World, after: World)
    requires Extended(before, after)
    ensures Grew(before.tables, after.tables)
  {
  }

  lemma PruningKeepsArchives(written: World, before: World, after: World, cutoff: int)
    requires Appended(written, before) && (after == before || after == AfterPrune(before, cutoff))
    ensures after.tables.archives == written.tables.archives
  {
  }

  /** The day stands behind an earlier day that waits and cannot be written. */
  ghost predicate Behind(tables: Tables, files: Files, today: int, day: int) {
    exists earlier :: earlier < day && earlier < today && Waiting(tables, earlier) != [] && !Writable(tables, files, earlier)
  }

  lemma NothingIsBehind(tables: Tables, files: Files, today: int)
    requires AllWritable(tables, files, today)
    ensures forall day :: !Behind(tables, files, today, day)
  {
    hide Writable, Waiting;
  }

  lemma BehindIsUntouched(start: World, now: World, candidates: seq<Candidate>, index: nat, today: int)
    requires index < |candidates| && Announced(start.tables, today, candidates)
    requires Progressed(start, now, candidates, index) && WritableUpTo(start, candidates, index)
    ensures forall day | Behind(start.tables, start.files, today, day) :: ArchiveOf(now.tables, day) == ArchiveOf(start.tables, day)
  {
    forall day | Behind(start.tables, start.files, today, day)
      ensures ArchiveOf(now.tables, day) == ArchiveOf(start.tables, day)
    {
      var earlier :| earlier < day && earlier < today && Waiting(start.tables, earlier) != []
                     && !Writable(start.tables, start.files, earlier);
      var place :| 0 <= place < |candidates| && candidates[place].day == earlier;
      hide Writable, Waiting, Extended, Everything;
      assert place >= index;
      forall i | 0 <= i < index
        ensures candidates[i].day != day
      {
        assert candidates[i].day < candidates[place].day;
      }
    }
  }

  lemma ClosedSince(start: World, listed: World, now: World, today: int)
    requires Invariant(start) && Appended(start, listed) && Closed(listed, now, today)
    ensures Closed(start, now, today)
  {
    forall day | day < today
      ensures Everything(start.tables, day) <= Archived(now.tables, day)
    {
      EverythingVisited(start, listed, day);
    }
  }

  lemma UnexpiredIsWritable(world: World, day: int)
    requires Invariant(world) && day !in world.expired
    ensures Writable(world.tables, world.files, day)
  {
    assert Restorable(world, day);
  }

  lemma NothingWaiting(world: World, day: int)
    requires Invariant(world) && day !in world.expired && Waiting(world.tables, day) == []
    ensures Archived(world.tables, day) == OfDay(world.stored, day)
  {
    assert Conserved(world, day);
    hide Invariant, Waiting;
    assert Archived(world.tables, day) + [] == Archived(world.tables, day);
  }

  /** Without a recorded archive, what waited still waits. */
  lemma StillWaiting(before: World, after: World, day: int)
    requires Invariant(before) && Extended(before, after) && Waiting(before.tables, day) != []
    ensures SameArchives(before, after) ==> Waiting(after.tables, day) != []
  {
    if SameArchives(before, after) {
      EverythingGrows(before, after, day);
      hide Invariant, Extended, Waiting;
      assert |Everything(after.tables, day)| >= |Everything(before.tables, day)|;
    }
  }

  lemma RecordedIsAll(before: World, after: World, day: int)
    requires Invariant(before) && Invariant(after) && day !in before.expired && day !in after.expired
    requires after.stored == before.stored && Waiting(before.tables, day) != []
    requires Recorded(before, after, CandidateFor(before.tables, day))
    ensures Archived(after.tables, day) == OfDay(after.stored, day) && Waiting(after.tables, day) == []
  {
    CandidateIsCurrent(before, day);
    assert Sound(after.tables, day) && Conserved(before, day) && Conserved(after, day);
    hide Invariant, Waiting;
  }

  // ---------------------------------------------------------------------------------------------
  // The archiver
  // ---------------------------------------------------------------------------------------------

  class Archiver {
    var tables: Tables
    var files: Files
    ghost var stored: seq<Record>
    ghost var expired: set<int>

    ghost function State(): World
      reads this
    {
      World(tables, files, stored, expired)
    }

    constructor ()
      ensures Invariant(State())
      ensures tables == Tables([], 1, map[]) && files == map[] && stored == [] && expired == {}
    {
      tables, files, stored, expired := Tables([], 1, map[]), map[], [], {};
    }

    method StoreAccessEvent(access: Access) returns (error: Option<Error>)
      modifies this
      ensures (State(), error) == AfterStore(old(State()), access)
    {
      match FindIdentity(tables.rows, access.identity)
      case Some(existing) =>
        if existing.access.payload != access.payload {
          return Some(Conflict);
        }
        return None;
      case None =>
        var record := Record(tables.nextId, access);
        tables := tables.(rows := tables.rows + [record], nextId := tables.nextId + 1);
        stored := stored + [record];
        return None;
    }

    /** Events are stored meanwhile. */
    method Await(moment: Moment, ghost since: World) returns (fate: Fate)
      requires Invariant(State()) && Appended(since, State())
      modifies this
      ensures Invariant(State()) && Appended(since, State()) && SameArchives(old(State()), State())
      ensures files == old(files) && fate == moment.fate
      ensures moment.arrivals == [] ==> State() == old(State())
    {
      hide Invariant, Appended;
      for index := 0 to |moment.arrivals|
        invariant Invariant(State()) && Appended(since, State()) && SameArchives(old(State()), State())
        invariant files == old(files)
        invariant index == 0 ==> State() == old(State())
      {
        ghost var before := State();
        StoringKeepsInvariant(before, moment.arrivals[index]);
        var _ := StoreAccessEvent(moment.arrivals[index]);
        AppendedCompose(since, before, State());
      }
      return moment.fate;
    }

    /** Removes a file; a missing one is no error. */
    method Remove(path: Path, moment: Moment, ghost since: World) returns (fate: Fate)
      requires Invariant(State()) && Appended(since, State())
      requires Safe(State(), files - {path}, path.day)
      modifies this
      ensures Invariant(State()) && Appended(since, State()) && SameArchives(old(State()), State())
      ensures fate == moment.fate && files == if fate.Go? then old(files) - {path} else old(files)
      ensures moment.arrivals == [] ==> tables == old(tables) && stored == old(stored)
    {
      hide Invariant, Appended, Restorable, Safe;
      ghost var before := State();
      fate := Await(moment, since);
      if fate.Go? {
        SameArchivesAreSafe(before, State(), files - {path}, path.day);
        ChangedFiles(since, State(), files - {path}, path.day);
        files := files - {path};
      }
    }

    /** Renames a file over another of the same day. */
    method Rename(from: Path, to: Path, moment: Moment, ghost since: World) returns (fate: Fate)
      requires Invariant(State()) && Appended(since, State())
      requires from in files && from.day == to.day && from != to
      requires Safe(State(), Renamed(files, from, to), from.day)
      modifies this
      ensures Invariant(State()) && Appended(since, State()) && SameArchives(old(State()), State())
      ensures fate == moment.fate && files == if fate.Go? then Renamed(old(files), from, to) else old(files)
      ensures moment.arrivals == [] ==> tables == old(tables) && stored == old(stored)
    {
      hide Invariant, Appended, Restorable, Safe;
      ghost var before := State();
      fate := Await(moment, since);
      if fate.Go? {
        SameArchivesAreSafe(before, State(), Renamed(files, from, to), from.day);
        ChangedFiles(since, State(), Renamed(files, from, to), from.day);
        files := Renamed(files, from, to);
      }
    }

    /** Renames the temporary file over the destination. */
    method RenameTemporary(day: int, temporary: seq<Record>, moment: Moment, ghost since: World) returns (fate: Fate)
      requires Invariant(State()) && Appended(since, State())
      requires Safe(State(), files[Destination(day) := temporary], day)
      modifies this
      ensures Invariant(State()) && Appended(since, State()) && SameArchives(old(State()), State())
      ensures fate == moment.fate && files == if fate.Go? then old(files)[Destination(day) := temporary] else old(files)
      ensures moment.arrivals == [] ==> tables == old(tables) && stored == old(stored)
    {
      hide Invariant, Appended, Restorable, Safe;
      ghost var before := State();
      fate := Await(moment, since);
      if fate.Go? {
        SameArchivesAreSafe(before, State(), files[Destination(day) := temporary], day);
        ChangedFiles(since, State(), files[Destination(day) := temporary], day);
        files := files[Destination(day) := temporary];
      }
    }

    /** Puts the backup back in the place of an incomplete archive. */
    method PutBack(day: int, plan: Plan, ghost since: World) returns (outcome: Outcome)
      requires Invariant(State()) && Appended(since, State())
      requires day in tables.archives && Matching(files, Backup(day), Archived(tables, day))
      modifies this
      ensures Invariant(State()) && Appended(since, State()) && SameArchives(old(State()), State())
      ensures OnlyFilesOf(old(files), files, day)
      ensures outcome.Done? ==> Matching(files, Destination(day), Archived(tables, day))
      ensures !outcome.Refused? && !outcome.Changed?
      ensures Quiet(plan) ==> outcome.Done? && tables == old(tables) && stored == old(stored)
    {
      hide Invariant, Appended;
      var fate := Remove(Destination(day), plan(RemoveIncomplete), since);
      if !fate.Go? {
        return Stopped(fate);
      }
      fate := Rename(Backup(day), Destination(day), plan(RestoreBackup), since);
      if !fate.Go? {
        return Stopped(fate);
      }
      fate := Await(plan(SyncRestored), since);
      return if fate.Go? then Done else Stopped(fate);
    }

    /** Looks for the recorded digest at the destination, then at the backup, and puts a matching backup back. */
    method RestoreMatching(day: int, digest: Digest, plan: Plan, ghost since: World) returns (outcome: Outcome)
      requires Invariant(State()) && Appended(since, State())
      requires day in tables.archives && tables.archives[day].digest == digest
      modifies this
      ensures Invariant(State()) && Appended(since, State()) && SameArchives(old(State()), State())
      ensures OnlyFilesOf(old(files), files, day) && !outcome.Changed?
      ensures outcome.Done? ==> old(Writable(tables, files, day)) && Matching(files, Destination(day), digest.content)
      ensures outcome.Refused? ==> old(!Writable(tables, files, day)) && files == old(files)
      ensures Quiet(plan) ==> (outcome.Done? || outcome.Refused?) && tables == old(tables) && stored == old(stored)
    {
      hide Invariant, Appended;
      var fate := Await(plan(HashDestination), since);
      if !fate.Go? {
        return Stopped(fate);
      }
      if Matching(files, Destination(day), digest.content) {
        return Done;
      }
      fate := Await(plan(HashBackup), since);
      if !fate.Go? {
        return Stopped(fate);
      }
      if !Matching(files, Backup(day), digest.content) {
        return Refused;
      }
      outcome := PutBack(day, plan, since);
    }

    /** Copies the existing archive of a day, restored if need be, after checking it against its metadata. */
    method CopyExisting(day: int, plan: Plan, ghost since: World)
      returns (outcome: Outcome, copied: seq<Record>, count: nat, maximumId: nat)
      requires Invariant(State()) && Appended(since, State()) && day in tables.archives
      modifies this
      ensures Invariant(State()) && Appended(since, State()) && SameArchives(old(State()), State())
      ensures OnlyFilesOf(old(files), files, day) && !outcome.Changed?
      ensures outcome.Done? ==> old(Writable(tables, files, day)) && Matching(files, Destination(day), copied)
      ensures outcome.Done? ==> Copied(tables, day, copied, count, maximumId)
      ensures outcome.Refused? ==> old(!Writable(tables, files, day)) && files == old(files)
      ensures Quiet(plan) ==> (outcome.Done? || outcome.Refused?) && tables == old(tables) && stored == old(stored)
    {
      copied, count, maximumId := [], 0, 0;
      var archived := tables.archives[day];
      assert Sound(tables, day);
      if archived.path != Destination(day) || archived.maxId < 1 {
        outcome := Refused;
        return;
      }
      hide Invariant, Appended;
      outcome := RestoreMatching(day, archived.digest, plan, since);
      if !outcome.Done? {
        return;
      }
      hide Writable;
      var fate := Await(plan(OpenExisting), since);
      if !fate.Go? {
        outcome := Stopped(fate);
        return;
      }
      var ordered;
      ordered, copied, count, maximumId := CopyArchive(files[Destination(day)]);
      if !ordered || count != archived.count || maximumId != archived.maxId {
        outcome := Refused;
      }
    }

    /** Adds the records the archive does not hold and checks the result against what was announced. */
    method VisitWaiting(candidate: Candidate, copied: seq<Record>, copiedCount: nat, copiedMaximumId: nat, plan: Plan,
                        ghost since: World)
      returns (outcome: Outcome, temporary: seq<Record>, ghost visited: World)
      requires Invariant(State()) && Appended(since, State())
      requires Copied(tables, candidate.day, copied, copiedCount, copiedMaximumId)
      modifies this
      ensures Invariant(State()) && Appended(since, State()) && SameArchives(old(State()), State())
      ensures files == old(files) && !outcome.Refused?
      ensures outcome.Done? ==> Visited(since, visited, State(), temporary, candidate)
      ensures Quiet(plan) ==> tables == old(tables) && stored == old(stored) && (outcome.Done? || outcome.Changed?)
      ensures Quiet(plan) && Current(tables, candidate) ==> !outcome.Changed?
    {
      hide Invariant, Appended, After;
      temporary, visited := copied, since;
      var fate := Await(plan(Visit), since);
      if !fate.Go? {
        outcome := Stopped(fate);
        return;
      }
      visited := State();
      var added, addedCount, addedMaximumId := VisitDay(tables, candidate.day, copiedMaximumId);
      temporary := copied + added;
      var count := copiedCount + addedCount;
      var maximumId := if addedMaximumId > copiedMaximumId then addedMaximumId else copiedMaximumId;
      assert temporary == Everything(tables, candidate.day);
      LastOfEverything(visited, candidate.day);
      if count != candidate.count || maximumId != candidate.maxId {
        outcome := Changed;
        return;
      }
      NothingAppended(visited, files);
      fate := Await(plan(SyncTemporary), visited);
      AppendedCompose(since, visited, State());
      outcome := if fate.Go? then Done else Stopped(fate);
    }

    /** Moves the existing archive aside, over a stale backup. */
    method SetAside(day: int, plan: Plan, ghost since: World) returns (outcome: Outcome)
      requires Invariant(State()) && Appended(since, State())
      requires day in tables.archives && Matching(files, Destination(day), Archived(tables, day))
      modifies this
      ensures Invariant(State()) && Appended(since, State()) && SameArchives(old(State()), State())
      ensures OnlyFilesOf(old(files), files, day)
      ensures outcome.Done? ==> Matching(files, Backup(day), Archived(tables, day))
      ensures outcome == Done || outcome == Broken || outcome == Dead
      ensures Quiet(plan) ==> outcome.Done? && tables == old(tables) && stored == old(stored)
    {
      hide Invariant, Appended;
      var fate := Remove(Backup(day), plan(RemoveStale), since);
      if !fate.Go? {
        return Stopped(fate);
      }
      fate := Rename(Destination(day), Backup(day), plan(Preserve), since);
      return if fate.Go? then Done else Stopped(fate);
    }

    /** Takes back the published file after its metadata could not be recorded; further errors are ignored. */
    method TakeBack(day: int, hadExisting: bool, plan: Plan, ghost since: World) returns (outcome: Outcome)
      requires Invariant(State()) && Appended(since, State()) && (hadExisting <==> day in tables.archives)
      requires hadExisting ==> Matching(files, Backup(day), Archived(tables, day))
      modifies this
      ensures Invariant(State()) && Appended(since, State()) && SameArchives(old(State()), State())
      ensures OnlyFilesOf(old(files), files, day) && (outcome == Broken || outcome == Dead)
    {
      hide Invariant, Appended;
      var fate := Remove(Destination(day), plan(UndoRemove), since);
      if fate.Die? {
        return Dead;
      }
      if hadExisting {
        fate := Rename(Backup(day), Destination(day), plan(UndoRestore), since);
        if fate.Die? {
          return Dead;
        }
      }
      fate := Await(plan(UndoSync), since);
      return Stopped(fate);
    }

    /** Puts the temporary file in the place of the archive. */
    method Replace(day: int, temporary: seq<Record>, hadExisting: bool, plan: Plan, ghost since: World)
      returns (outcome: Outcome)
      requires Invariant(State()) && Appended(since, State()) && (hadExisting <==> day in tables.archives)
      requires hadExisting ==> Matching(files, Destination(day), Archived(tables, day))
      modifies this
      ensures Invariant(State()) && Appended(since, State()) && SameArchives(old(State()), State())
      ensures OnlyFilesOf(old(files), files, day)
      ensures outcome.Done? ==> Matching(files, Destination(day), temporary)
      ensures outcome.Done? && hadExisting ==> Matching(files, Backup(day), Archived(tables, day))
      ensures outcome.Done? && !hadExisting ==> files == old(files)[Destination(day) := temporary]
      ensures outcome == Done || outcome == Broken || outcome == Dead
      ensures Quiet(plan) ==> outcome.Done? && tables == old(tables) && stored == old(stored)
    {
      hide Invariant, Appended;
      if hadExisting {
        outcome := SetAside(day, plan, since);
        if !outcome.Done? {
          return;
        }
      }
      var fate := RenameTemporary(day, temporary, plan(Publish), since);
      if fate.Fail? && hadExisting {
        fate := Rename(Backup(day), Destination(day), plan(UndoPublish), since);
        return Stopped(fate);
      }
      if !fate.Go? {
        return Stopped(fate);
      }
      fate := Await(plan(SyncPublished), since);
      return if fate.Go? then Done else Stopped(fate);
    }

    /** The statement that records the archive of a published file. */
    method RecordAccessArchive(candidate: Candidate, temporary: seq<Record>, ghost since: World, ghost visited: World)
      requires Invariant(State()) && Visited(since, visited, State(), temporary, candidate)
      requires Invariant(since) && candidate.count >= 1
      requires Matching(files, Destination(candidate.day), temporary)
      modifies this`tables
      ensures Invariant(State()) && Extended(since, State()) && Recorded(since, State(), candidate)
      ensures SameArchivesBut(old(tables), tables, candidate.day)
    {
      hide Invariant, Extended, Recorded, Visited, Matching, SameArchivesBut;
      RecordingCompletes(since, visited, State(), candidate, temporary);
      var archive := Archive(Destination(candidate.day), candidate.count, candidate.maxId, Digest(temporary));
      tables := tables.(archives := tables.archives[candidate.day := archive]);
    }

    /** Records the published file, or takes it back. */
    method Commit(candidate: Candidate, temporary: seq<Record>, plan: Plan, ghost since: World, ghost visited: World)
      returns (outcome: Outcome)
      requires Invariant(State()) && Visited(since, visited, State(), temporary, candidate)
      requires Invariant(since) && candidate.count >= 1
      requires candidate.archived == ArchiveOf(tables, candidate.day)
      requires Matching(files, Destination(candidate.day), temporary)
      requires candidate.archived.Some? ==> Matching(files, Backup(candidate.day), Archived(tables, candidate.day))
      modifies this
      ensures Invariant(State()) && Extended(since, State())
      ensures OnlyFilesOf(old(files), files, candidate.day)
      ensures if outcome.Done? then Recorded(since, State(), candidate) else SameArchives(old(State()), State())
      ensures outcome.Done? ==> files == old(files)
      ensures SameArchivesBut(old(tables), tables, candidate.day)
      ensures outcome == Done || outcome == Broken || outcome == Dead
      ensures Quiet(plan) ==> outcome.Done? && stored == old(stored)
    {
      var day := candidate.day;
      hide Invariant, Appended, Extended;
      AppendedCompose(since, visited, State());
      AppendedExtends(since, State());
      var fate := Await(plan(RecordArchive), visited);
      AppendedCompose(since, visited, State());
      AppendedExtends(since, State());
      if fate.Die? {
        return Dead;
      }
      if fate.Fail? {
        outcome := TakeBack(day, candidate.archived.Some?, plan, since);
        AppendedExtends(since, State());
        return;
      }
      RecordAccessArchive(candidate, temporary, since, visited);
      return Done;
    }

    /** Writes the temporary file: the records of the existing archive, then the records it does not hold. */
    method WriteTemporary(candidate: Candidate, plan: Plan)
      returns (outcome: Outcome, temporary: seq<Record>, ghost visited: World)
      requires Invariant(State()) && candidate.archived == ArchiveOf(tables, candidate.day)
      modifies this
      ensures Invariant(State()) && Appended(old(State()), State()) && OnlyFilesOf(old(files), files, candidate.day)
      ensures outcome.Done? ==> Visited(old(State()), visited, State(), temporary, candidate)
      ensures candidate.archived.None? ==> files == old(files)
      ensures outcome.Done? && candidate.archived.Some? ==>
        Matching(files, Destination(candidate.day), Archived(tables, candidate.day))
      ensures outcome.Done? ==> old(Writable(tables, files, candidate.day))
      ensures outcome.Refused? ==> old(!Writable(tables, files, candidate.day)) && files == old(files)
      ensures Quiet(plan) ==> tables == old(tables) && stored == old(stored) && !outcome.Broken? && !outcome.Dead?
      ensures Quiet(plan) && old(Current(tables, candidate)) ==> !outcome.Changed?
    {
      ghost var start := State();
      NothingAppended(start, files);
      assert Sound(tables, candidate.day);
      hide Invariant, Appended, Visited, Current;
      temporary, visited := [], start;
      var fate := Await(plan(Prepare), start);
      if !fate.Go? {
        outcome := Stopped(fate);
        return;
      }
      var count, maximumId := 0, 0;
      if candidate.archived.Some? {
        outcome, temporary, count, maximumId := CopyExisting(candidate.day, plan, start);
        if !outcome.Done? {
          return;
        }
      }
      outcome, temporary, visited := VisitWaiting(candidate, temporary, count, maximumId, plan, start);
    }

    /** Puts the temporary file in place and records it. */
    method PublishTemporary(candidate: Candidate, temporary: seq<Record>, plan: Plan, ghost since: World,
                            ghost visited: World)
      returns (outcome: Outcome)
      requires Invariant(State()) && Visited(since, visited, State(), temporary, candidate)
      requires Invariant(since) && candidate.count >= 1
      requires candidate.archived == ArchiveOf(tables, candidate.day)
      requires candidate.archived.Some? ==> Matching(files, Destination(candidate.day), Archived(tables, candidate.day))
      modifies this
      ensures Invariant(State()) && Extended(since, State()) && OnlyFilesOf(old(files), files, candidate.day)
      ensures if outcome.Done? then Recorded(since, State(), candidate) else SameArchives(old(State()), State())
      ensures outcome.Done? && candidate.archived.None? ==> files == old(files)[Destination(candidate.day) := temporary]
      ensures SameArchivesBut(old(tables), tables, candidate.day)
      ensures outcome == Done || outcome == Broken || outcome == Dead
      ensures Quiet(plan) ==> outcome.Done? && stored == old(stored)
    {
      hide Invariant, Appended, Extended, Recorded;
      outcome := Replace(candidate.day, temporary, candidate.archived.Some?, plan, visited);
      AppendedCompose(since, visited, State());
      AppendedExtends(since, State());
      if outcome.Done? {
        outcome := Commit(candidate, temporary, plan, since, visited);
      }
    }

    /** Removes the previous archive of a day that has been recorded. */
    method RemovePrevious(day: int, plan: Plan) returns (outcome: Outcome)
      requires Invariant(State()) && day in tables.archives
      requires Matching(files, Destination(day), Archived(tables, day))
      modifies this
      ensures Invariant(State()) && Appended(old(State()), State()) && OnlyFilesOf(old(files), files, day)
      ensures Matching(files, Destination(day), Archived(tables, day))
      ensures outcome.Done? ==> Backup(day) !in files
      ensures outcome == Done || outcome == Broken || outcome == Dead
      ensures Quiet(plan) ==> outcome.Done? && stored == old(stored)
    {
      ghost var start := State();
      NothingAppended(start, files);
      hide Invariant, Appended;
      var fate := Remove(Backup(day), plan(RemoveBackup), start);
      if !fate.Go? {
        return Stopped(fate);
      }
      fate := Await(plan(SyncDone), start);
      return if fate.Go? then Done else Stopped(fate);
    }

    /** Archives a closed day: everything the archive holds and everything that waits, into a new file that takes
        the place of the old one. */
    method WriteDay(candidate: Candidate, plan: Plan) returns (outcome: Outcome)
      requires Invariant(State()) && candidate.archived == ArchiveOf(tables, candidate.day) && candidate.count >= 1
      modifies this
      ensures Invariant(State()) && Extended(old(State()), State()) && OnlyFilesOf(old(files), files, candidate.day)
      ensures SameArchivesBut(old(tables), tables, candidate.day)
      ensures SameArchives(old(State()), State()) || Recorded(old(State()), State(), candidate)
      ensures outcome.Done? ==> Recorded(old(State()), State(), candidate) && old(Writable(tables, files, candidate.day))
      ensures outcome.Done? && candidate.archived.Some? ==> Backup(candidate.day) !in files
      ensures outcome.Done? && candidate.archived.None? ==> files.Keys == old(files).Keys + {Destination(candidate.day)}
      ensures outcome.Refused? ==> old(!Writable(tables, files, candidate.day)) && files == old(files)
      ensures outcome.Refused? ==> SameArchives(old(State()), State())
      ensures Quiet(plan) && old(Current(tables, candidate)) ==>
        outcome == if old(Writable(tables, files, candidate.day)) then Done else Refused
      ensures Quiet(plan) ==> stored == old(stored)
    {
      ghost var start := State();
      hide Invariant, Visited, Current, Extended, Everything, Writable;
      var temporary;
      ghost var visited;
      outcome, temporary, visited := WriteTemporary(candidate, plan);
      AppendedExtends(start, State());
      if !outcome.Done? {
        return;
      }
      var hadExisting := candidate.archived.Some?;
      outcome := PublishTemporary(candidate, temporary, plan, start, visited);
      if !outcome.Done? || !hadExisting {
        return;
      }
      ghost var published := State();
      outcome := RemovePrevious(candidate.day, plan);
      AppendedExtends(published, State());
      ExtendedCompose(start, published, State());
      RecordedStays(start, published, State(), candidate);
    }

    /** The closed days with waiting records. */
    method WaitingDays(today: int) returns (days: set<int>)
      ensures forall day :: day in days <==> day < today && Waiting(tables, day) != []
    {
      days := set i | 0 <= i < |tables.rows| && tables.rows[i].access.day < today
                      && tables.rows[i].id > Floor(tables, tables.rows[i].access.day) :: tables.rows[i].access.day;
      forall day
        ensures day in days <==> day < today && Waiting(tables, day) != []
      {
        WaitingWitness(tables.rows, day, Floor(tables, day));
      }
    }

    /** One candidate for each of them, in the order of the days. */
    method PendingDays(today: int) returns (candidates: seq<Candidate>)
      ensures Announced(tables, today, candidates)
    {
      var waiting := WaitingDays(today);
      var days := InOrder(waiting);
      hide After, Floor;
      assert forall i | 0 <= i < |days| :: days[i] in days;
      candidates := [];
      for index := 0 to |days|
        invariant |candidates| == index
        invariant forall i | 0 <= i < index :: Waiting(tables, days[i]) != [] && candidates[i] == CandidateFor(tables, days[i])
      {
        candidates := candidates + [CandidateFor(tables, days[index])];
      }
      assert forall i | 0 <= i < |days| :: candidates[i].day == days[i];
    }

    /** Archives the announced days in order, up to the first that cannot be archived. */
    method WriteListed(today: int, candidates: seq<Candidate>, plans: nat -> Plan) returns (outcome: Outcome)
      requires Invariant(State()) && Announced(tables, today, candidates)
      modifies this
      ensures Invariant(State()) && Extended(old(State()), State())
      ensures outcome.Done? ==> Closed(old(State()), State(), today)
      ensures AllQuiet(plans) ==> (outcome.Done? <==> old(AllWritable(tables, files, today)))
      ensures AllQuiet(plans) ==> forall day | Behind(old(tables), old(files), today, day) ::
        ArchiveOf(tables, day) == ArchiveOf(old(tables), day)
      ensures OpenDaysKept(old(State()), State(), today)
    {
      ghost var start := State();
      NothingYet(start, candidates);
      AwaitingKeepsOpenDays(start, start, today);
      hide OpenDaysKept, Invariant, Progressed, WritableUpTo, Announced, AllWritable, Closed, Writable, Current, Recorded,
           OnlyFilesOf, Behind;
      for index := 0 to |candidates|
        invariant Invariant(State()) && Progressed(start, State(), candidates, index)
        invariant AllQuiet(plans) ==> stored == start.stored && WritableUpTo(start, candidates, index)
        invariant OpenDaysKept(start, State(), today)
      {
        ghost var before := State();
        CandidateIsReady(start, before, candidates, index, today);
        outcome := WriteDay(candidates[index], plans(index));
        ProgressedExtends(start, before, State(), candidates, index);
        WritingKeepsOpenDays(start, before, State(), candidates, index, today);
        if !outcome.Done? {
          NotAllWritable(start, candidates, index, today);
          if AllQuiet(plans) {
            BehindIsUntouched(start, before, candidates, index, today);
          }
          return;
        }
        NextProgressed(start, before, State(), candidates, index, today);
        NextWritable(start, candidates, index);
      }
      AllAreClosed(start, State(), candidates, today);
      if AllQuiet(plans) {
        NothingIsBehind(start.tables, start.files, today);
      }
      return Done;
    }

    /** Lists the closed days with waiting records and archives them. */
    method WriteClosedDays(today: int, listing: Plan, plans: nat -> Plan) returns (outcome: Outcome)
      requires Invariant(State())
      modifies this
      ensures Invariant(State()) && Extended(old(State()), State())
      ensures outcome.Done? ==> Closed(old(State()), State(), today)
      ensures Quiet(listing) && AllQuiet(plans) ==> (outcome.Done? <==> old(AllWritable(tables, files, today)))
      ensures Quiet(listing) && AllQuiet(plans) ==> forall day | Behind(old(tables), old(files), today, day) ::
        ArchiveOf(tables, day) == ArchiveOf(old(tables), day)
      ensures OpenDaysKept(old(State()), State(), today)
    {
      ghost var start := State();
      NothingAppended(start, files);
      hide OpenDaysKept, Invariant, Appended, Extended, Announced, Closed, AllWritable, Behind;
      var fate := Await(listing(ListPending), start);
      AppendedExtends(start, State());
      AwaitingKeepsOpenDays(start, State(), today);
      if !fate.Go? {
        return Stopped(fate);
      }
      ghost var listed := State();
      var candidates := PendingDays(today);
      outcome := WriteListed(today, candidates, plans);
      ExtendedCompose(start, listed, State());
      OpenDaysCompose(start, listed, State(), today);
      if outcome.Done? {
        ClosedSince(start, listed, State(), today);
      }
    }

    /** Reads the cursors of the standard consumers; if one has no row nothing is deleted and that is no error.
        Otherwise the hot records that an archive holds and that were observed before the cutoff are deleted. */
    method PruneHotData(cutoff: int, cursors: nat -> bool, plan: Plan)
      returns (outcome: Outcome, pruned: bool, ghost before: World)
      requires Invariant(State())
      modifies this
      ensures Invariant(State()) && files == old(files) && Appended(old(State()), before) && Invariant(before)
      ensures State() == if pruned then AfterPrune(before, cutoff) else before
      ensures pruned <==> outcome.Done? && AllPresent(cursors)
      ensures Quiet(plan) ==> outcome.Done? && before == old(State())
    {
      ghost var start := State();
      before, pruned := start, false;
      NothingAppended(start, files);
      hide Invariant, Appended;
      for index := 0 to STANDARD_CONSUMERS
        invariant Invariant(State()) && Appended(start, State()) && files == old(files) && before == State() && !pruned
        invariant forall i | 0 <= i < index :: cursors(i)
        invariant Quiet(plan) ==> State() == start
      {
        var fate := Await(plan(ReadCursor(index)), start);
        before := State();
        if !fate.Go? {
          outcome := Stopped(fate);
          return;
        }
        if !cursors(index) {
          outcome := Done;
          return;
        }
      }
      var fate := Await(plan(DeleteHot), start);
      before := State();
      if !fate.Go? {
        outcome := Stopped(fate);
        return;
      }
      PruningKeepsInvariant(State(), cutoff);
      tables := tables.(rows := Kept(tables.rows, tables, cutoff));
      outcome, pruned := Done, true;
    }

    /** Removes the archives of the days before a day, each file before its metadata. */
    method ExpireArchives(before: int, listing: Plan, plans: nat -> Plan) returns (outcome: Outcome)
      requires Invariant(State())
      modifies this
      ensures Invariant(State()) && OnlyExpired(old(State()), State(), before) && Grew(old(tables), tables)
      ensures outcome.Done? ==> forall day | day in tables.archives :: day >= before
      ensures Quiet(listing) && AllQuiet(plans) ==> outcome.Done?
    {
      ghost var begin := State();
      NothingAppended(begin, files);
      hide Invariant, Appended, OnlyExpired, Grew;
      var fate := Await(listing(ListExpired), begin);
      AppendedGrew(begin, State());
      StoringExpiresNothing(begin, State(), before);
      if !fate.Go? {
        return Stopped(fate);
      }
      ghost var listed := State();
      outcome := ExpireListed(before, plans);
      ExpiredCompose(begin, listed, State(), before, before);
      GrewCompose(begin.tables, listed.tables, tables);
    }

    /** Expires the listed archives in the order of their days. */
    method ExpireListed(before: int, plans: nat -> Plan) returns (outcome: Outcome)
      requires Invariant(State())
      modifies this
      ensures Invariant(State()) && OnlyExpired(old(State()), State(), before) && Grew(old(tables), tables)
      ensures outcome.Done? ==> forall day | day in tables.archives :: day >= before
      ensures AllQuiet(plans) ==> outcome.Done?
    {
      ghost var start := State();
      var days := InOrder(set day | day in tables.archives && day < before);
      assert forall i | 0 <= i < |days| :: days[i] in days;
      hide Invariant, OnlyExpired, Grew;
      NothingExpired(start, before);
      assert Grew(tables, tables) by {
        NothingGrew(tables);
      }
      for index := 0 to |days|
        invariant Invariant(State()) && OnlyExpired(start, State(), before) && Grew(start.tables, tables)
        invariant forall day | day in tables.archives && day < before :: day in days[index..]
      {
        ghost var previous := State();
        outcome := ExpireDay(days[index], plans(index));
        ExpiredCompose(start, previous, State(), days[index] + 1, before);
        GrewCompose(start.tables, previous.tables, tables);
        if !outcome.Done? {
          return;
        }
      }
      return Done;
    }

    /** Removes the file of an archive, then its metadata. */
    method ExpireDay(day: int, plan: Plan) returns (outcome: Outcome)
      requires Invariant(State())
      modifies this
      ensures Invariant(State()) && OnlyExpired(old(State()), State(), day + 1) && Grew(old(tables), tables)
      ensures var removed := plan(RemoveExpired).fate.Go?;
        && (outcome.Done? <==> removed && plan(DeleteExpired).fate.Go?)
        && files == (if removed then old(files) - {Destination(day)} else old(files))
        && expired == (if removed then old(expired) + {day} else old(expired))
      ensures tables.archives == if outcome.Done? then old(tables.archives) - {day} else old(tables.archives)
      ensures plan(RemoveExpired).arrivals == [] && plan(DeleteExpired).arrivals == [] ==>
        tables.rows == old(tables.rows) && tables.nextId == old(tables.nextId) && stored == old(stored)
    {
      NothingAppended(State(), files);
      hide Invariant, Appended, OnlyExpired, Grew;
      ghost var start := State();
      var fate := Await(plan(RemoveExpired), start);
      AppendedGrew(start, State());
      StoringExpiresNothing(start, State(), day + 1);
      if !fate.Go? {
        return Stopped(fate);
      }
      FileExpires(start, State(), day);
      files := files - {Destination(day)};
      expired := expired + {day};
      ghost var removed := State();
      NothingAppended(removed, files);
      fate := Await(plan(DeleteExpired), removed);
      AppendedGrew(removed, State());
      GrewCompose(start.tables, removed.tables, tables);
      StoringExpiresNothing(removed, State(), day + 1);
      ExpiredCompose(start, removed, State(), day + 1, day + 1);
      if !fate.Go? {
        return Stopped(fate);
      }
      ghost var settled := State();
      MetadataExpires(settled, day);
      ExpiredCompose(start, settled, settled.(tables := tables.(archives := tables.archives - {day})), day + 1, day + 1);
      tables := tables.(archives := tables.archives - {day});
      GrewWithoutArchives(start.tables, settled.tables, tables);
      return Done;
    }

    /** One cycle: archive the closed days, prune, expire. A cycle that succeeds leaves no archived record of the days
        kept due for deletion if every standard consumer has a cursor, and deletes no record at all if one has none. */
    method RunOnce(cycle: Cycle) returns (outcome: Outcome)
      requires Invariant(State())
      modifies this
      ensures Invariant(State())
      ensures outcome.Done? ==> forall day | cycle.expireBefore <= day < cycle.today ::
        Everything(old(tables), day) <= Archived(tables, day)
      ensures outcome.Done? && AllPresent(cycle.cursors) ==> NothingDue(tables, cycle.expireBefore, cycle.cutoff)
      ensures outcome.Done? && !AllPresent(cycle.cursors) ==> Grew(old(tables), tables)
      ensures outcome.Done? ==> forall day | day in tables.archives :: day >= cycle.expireBefore
      ensures Quiet(cycle.listing) && AllQuiet(cycle.writing) && AllQuiet(cycle.expiring) ==>
        (outcome.Done? <==> old(AllWritable(tables, files, cycle.today)))
    {
      ghost var start := State();
      hide Invariant, Everything, Extended, Kept, Deleted, Grew, Appended, AfterPrune;
      outcome := WriteClosedDays(cycle.today, cycle.listing, cycle.writing);
      if !outcome.Done? {
        return;
      }
      ghost var written := State();
      var pruned;
      ghost var unpruned;
      outcome, pruned, unpruned := PruneHotData(cycle.cutoff, cycle.cursors, cycle.listing);
      if !outcome.Done? {
        return;
      }
      ghost var rest := State();
      PruningKeepsArchives(written, unpruned, rest, cycle.cutoff);
      outcome := ExpireArchives(cycle.expireBefore, cycle.listing, cycle.expiring);
      forall day | cycle.expireBefore <= day < cycle.today
        ensures Everything(start.tables, day) <= Archived(tables, day)
      {
        assert ArchiveOf(tables, day) == ArchiveOf(rest.tables, day);
      }
      if pruned {
        forall row | row in tables.rows && row.access.day >= cycle.expireBefore
          ensures !Deleted(row, tables, cycle.cutoff)
        {
          NothingLeftToPrune(unpruned, rest, State(), cycle.cutoff, cycle.expireBefore, row);
        }
      } else {
        ExtendedGrew(start, written);
        AppendedGrew(written, unpruned);
        GrewCompose(start.tables, written.tables, unpruned.tables);
        GrewCompose(start.tables, unpruned.tables, tables);
      }
    }

    /** Any number of cycles, each ending as its plans say, with events stored in between. */
    method Live(cycles: seq<Cycle>) returns (outcomes: seq<Outcome>)
      requires Invariant(State())
      modifies this
      ensures Invariant(State()) && |outcomes| == |cycles|
      ensures cycles != [] && outcomes[|cycles| - 1].Done? && AllPresent(cycles[|cycles| - 1].cursors) ==>
        NothingDue(tables, cycles[|cycles| - 1].expireBefore, cycles[|cycles| - 1].cutoff)
    {
      hide Invariant, NothingDue;
      outcomes := [];
      for index := 0 to |cycles|
        invariant Invariant(State()) && |outcomes| == index
        invariant index > 0 && outcomes[index - 1].Done? && AllPresent(cycles[index - 1].cursors) ==>
          NothingDue(tables, cycles[index - 1].expireBefore, cycles[index - 1].cutoff)
      {
        ghost var before := State();
        NothingAppended(before, files);
        var _ := Await(Moment(cycles[index].arrivals, Go), before);
        var outcome := RunOnce(cycles[index]);
        outcomes := outcomes + [outcome];
      }
    }

    /** However writing a day ended, an undisturbed rerun archives everything ever stored for it. */
    method WriteAgain(day: int, first: Plan, second: Plan)
      requires Invariant(State()) && day !in expired && Waiting(tables, day) != [] && Quiet(second)
      modifies this
      ensures Invariant(State()) && Extended(old(State()), State())
      ensures Archived(tables, day) == OfDay(stored, day) && Waiting(tables, day) == []
      ensures Matching(files, Destination(day), OfDay(stored, day))
    {
      ghost var start := State();
      CandidateIsCurrent(start, day);
      hide Invariant, Extended, Waiting, Current;
      var outcome := WriteDay(CandidateFor(tables, day), first);
      if Waiting(tables, day) != [] {
        ghost var between := State();
        CandidateIsCurrent(between, day);
        UnexpiredIsWritable(between, day);
        outcome := WriteDay(CandidateFor(tables, day), second);
        ExtendedCompose(start, between, State());
        RecordedIsAll(between, State(), day);
      } else {
        StillWaiting(start, State(), day);
        NothingWaiting(State(), day);
      }
    }
  }

  // ---------------------------------------------------------------------------------------------
  // A half expired day
  // ---------------------------------------------------------------------------------------------

  lemma NewIdentityIsStored(world: World, access: Access)
    requires forall row | row in world.tables.rows :: row.access.identity != access.identity
    ensures AfterStore(world, access).0 == WithRecord(world, Record(world.tables.nextId, access))
  {
  }

  lemma OneWaits(tables: Tables, record: Record)
    requires tables.rows == [record] && record.access.day !in tables.archives && record.id > 0
    ensures Waiting(tables, record.access.day) == tables.rows && Everything(tables, record.access.day) == tables.rows
  {
    var day := record.access.day;
    assert tables.rows[..|tables.rows| - 1] == [];
    assert After([], day, 0) == [];
    assert [] + [record] == tables.rows;
    assert Archived(tables, day) + Waiting(tables, day) == tables.rows;
  }

  lemma LateWaits(tables: Tables, day: int)
    requires tables.rows != [] && tables.rows[|tables.rows| - 1].access.day == day
    requires tables.rows[|tables.rows| - 1].id > Floor(tables, day)
    ensures Waiting(tables, day) != []
  {
  }

  lemma WaitingStays(tables: Tables, record: Record, day: int)
    requires Waiting(tables, day) != []
    ensures Waiting(tables.(rows := tables.rows + [record], nextId := tables.nextId + 1), day) != []
  {
    FiltersSplit(tables.rows, [record], day, Floor(tables, day));
  }

  lemma OnlyOneRecord(archived: seq<Record>, rows: seq<Record>)
    requires rows <= archived && |archived| == |rows|
    ensures archived == rows
  {
  }

  /** The day holds one record, its archive holds that record, and there is no other file or archive. */
  ghost predicate OneArchived(world: World, record: Record) {
    var day := record.access.day;
    && Invariant(world) && record.id >= 1
    && world.tables.rows == [record] && world.tables.archives.Keys == {day} && Archived(world.tables, day) == [record]
  }

  /** Stores a record in a new database. */
  method StoreOne(first: Access) returns (archiver: Archiver)
    ensures fresh(archiver) && Invariant(archiver.State())
    ensures archiver.State() == World(Tables([Record(1, first)], 2, map[]), map[], [Record(1, first)], {})
  {
    archiver := new Archiver();
    NewIdentityIsStored(archiver.State(), first);
    StoringKeepsInvariant(archiver.State(), first);
    hide Invariant, FindIdentity, AfterStore;
    var _ := archiver.StoreAccessEvent(first);
    assert [] + [Record(1, first)] == [Record(1, first)];
  }

  lemma ArchivedOne(start: World, now: World, record: Record, candidate: Candidate)
    requires Invariant(now) && record.id >= 1 && candidate.day == record.access.day && candidate.count == 1
    requires start.tables.rows == [record] && start.tables.archives == map[] && Everything(start.tables, candidate.day) == [record]
    requires Extended(start, now) && now.stored == start.stored && Recorded(start, now, candidate)
    requires SameArchivesBut(start.tables, now.tables, candidate.day)
    ensures OneArchived(now, record)
  {
    assert Sound(now.tables, candidate.day);
    hide Invariant, Everything;
    NothingArrived(start, now);
    OnlyOneRecord(Archived(now.tables, candidate.day), [record]);
    forall day
      ensures day in now.tables.archives <==> day == candidate.day
    {
      assert day != candidate.day ==> day !in start.tables.archives;
    }
  }

  lemma FirstCandidate(world: World, record: Record)
    requires Invariant(world) && world.tables.rows == [record] && world.tables.archives == map[] && record.id >= 1
    ensures var day := record.access.day;
      && Waiting(world.tables, day) == [record] && Everything(world.tables, day) == [record]
      && Writable(world.tables, world.files, day)
      && (var candidate := CandidateFor(world.tables, day);
          Current(world.tables, candidate) && candidate.count == 1 && candidate.archived == None && candidate.day == day
          && candidate.archived == ArchiveOf(world.tables, day))
  {
    OneWaits(world.tables, record);
    CandidateIsCurrent(world, record.access.day);
    hide Invariant, Waiting, Everything, Current;
  }

  /** Archives the first record of a database. */
  method WriteFirst(archiver: Archiver, ghost record: Record, day: int, quiet: Plan)
    requires Quiet(quiet) && Invariant(archiver.State()) && record.access.day == day && record.id >= 1
    requires archiver.tables.rows == [record] && archiver.tables.archives == map[] && archiver.files == map[]
    modifies archiver
    ensures OneArchived(archiver.State(), record) && archiver.files.Keys == {Destination(day)}
  {
    ghost var start := archiver.State();
    FirstCandidate(start, record);
    hide Invariant, Waiting, Everything, Current, Writable, OneArchived, Recorded, Extended, SameArchives, SameArchivesBut,
         OnlyFilesOf, Quiet, CandidateFor, ArchiveOf;
    var candidate := CandidateFor(archiver.tables, day);
    var outcome := archiver.WriteDay(candidate, quiet);
    assert outcome.Done?;
    ArchivedOne(start, archiver.State(), record, candidate);
  }

  /** Stores a record and archives its day. */
  method ArchiveOne(first: Access, quiet: Plan) returns (archiver: Archiver)
    requires Quiet(quiet)
    ensures fresh(archiver) && OneArchived(archiver.State(), Record(1, first))
    ensures archiver.files.Keys == {Destination(first.day)}
  {
    hide Invariant, OneArchived, Quiet;
    archiver := StoreOne(first);
    WriteFirst(archiver, Record(1, first), first.day, quiet);
  }

  lemma NothingArrived(before: World, after: World)
    requires Extended(before, after) && after.stored == before.stored
    ensures after.tables.rows == before.tables.rows
  {
  }

  /** Half of the archive expires: the file goes, the metadata stays. */
  method HalfExpire(archiver: Archiver, ghost record: Record, day: int, dying: Plan)
    requires OneArchived(archiver.State(), record) && record.access.day == day
    requires archiver.files.Keys == {Destination(day)}
    requires dying(RemoveExpired) == Moment([], Go) && dying(DeleteExpired) == Moment([], Die)
    modifies archiver
    ensures OneArchived(archiver.State(), record) && archiver.files == map[]
  {
    hide Invariant;
    var _ := archiver.ExpireDay(day, dying);
    assert archiver.files.Keys == {};
  }

  /** A late record of the half expired day and one of a later day wait; the day cannot be written. */
  lemma LateRecordsBlock(world: World, record: Record, late: Access, other: Access, today: int)
    requires OneArchived(world, record) && world.files == map[]
    requires record.access.day == late.day < other.day < today
    ensures var next := WithRecord(WithRecord(world, Record(world.tables.nextId, late)), Record(world.tables.nextId + 1, other));
      && Behind(next.tables, next.files, today, other.day) && !AllWritable(next.tables, next.files, today)
      && Waiting(next.tables, other.day) != []
  {
    var first := WithRecord(world, Record(world.tables.nextId, late));
    var next := WithRecord(first, Record(world.tables.nextId + 1, other));
    assert Sound(world.tables, late.day);
    FloorIsBelow(world.tables, late.day);
    hide Invariant, After, Sound;
    LateWaits(first.tables, late.day);
    WaitingStays(first.tables, Record(world.tables.nextId + 1, other), late.day);
    LateWaits(next.tables, other.day);
    assert !Writable(next.tables, next.files, late.day);
  }

  lemma NewRecordArrives(world: World, access: Access)
    requires Invariant(world) && forall row | row in world.tables.rows :: row.access.identity != access.identity
    ensures var next := WithRecord(world, Record(world.tables.nextId, access));
            AfterStore(world, access).0 == next && Invariant(next)
  {
    NewIdentityIsStored(world, access);
    StoringKeepsInvariant(world, access);
    hide Invariant, AfterStore;
  }

  lemma ArrivingLate(world: World, record: Record, late: Access, other: Access)
    requires OneArchived(world, record)
    requires record.access.identity != late.identity && record.access.identity != other.identity
    requires late.identity != other.identity && record.access.day != other.day
    ensures var first := WithRecord(world, Record(world.tables.nextId, late));
            var second := WithRecord(first, Record(world.tables.nextId + 1, other));
      && AfterStore(world, late).0 == first && AfterStore(first, other).0 == second && Invariant(second)
      && other.day !in second.tables.archives
  {
    hide AfterStore, Invariant, Archived;
    var arrived := Record(world.tables.nextId, late);
    NewRecordArrives(world, late);
    assert world.tables.rows + [arrived] == [record, arrived];
    NewRecordArrives(WithRecord(world, arrived), other);
  }

  /** A reachable run. A record is archived, the expiry of its day dies between the file and the metadata, a late
      record of the day arrives and one of a later day. From then on an undisturbed pass fails, and the later day
      is not archived. */
  method HalfExpiredDayBlocks(first: Access, late: Access, other: Access, today: int, quiet: Plan, dying: Plan)
    returns (archiver: Archiver, outcome: Outcome)
    requires first.identity != late.identity && first.identity != other.identity && late.identity != other.identity
    requires late.day == first.day < other.day < today
    requires Quiet(quiet) && dying(RemoveExpired) == Moment([], Go) && dying(DeleteExpired) == Moment([], Die)
    ensures fresh(archiver) && Invariant(archiver.State()) && !outcome.Done?
    ensures other.day !in archiver.tables.archives
  {
    archiver := ArchiveOne(first, quiet);
    hide Invariant, Waiting, FindIdentity, AfterStore, Behind, AllWritable, Writable, Extended, OneArchived;
    ghost var record := Record(1, first);
    HalfExpire(archiver, record, first.day, dying);
    ghost var world := archiver.State();
    LateRecordsBlock(world, record, late, other, today);
    ArrivingLate(world, record, late, other);
    var _ := archiver.StoreAccessEvent(late);
    var _ := archiver.StoreAccessEvent(other);
    hide WithRecord;
    outcome := archiver.WriteClosedDays(today, quiet, n => quiet);
    assert ArchiveOf(archiver.tables, other.day).None?;
  }
}
