/** The access records of the event database, the files of the archive directory, and what archiving keeps. */
module AccessTables {
  import opened Outcomes

  /** A normalized access event: the identity its plugin gave it, its day and time, and everything else. */
  datatype Access = Access(identity: string, day: int, observedAt: int, payload: string)

  datatype Record = Record(id: nat, access: Access)

  /** SHA-256 is taken to be injective: a digest determines the records of the file. */
  datatype Digest = Digest(content: seq<Record>)

  datatype Path = Destination(day: int) | Backup(day: int)

  /** A row of access_archive_days. */
  datatype Archive = Archive(path: Path, count: nat, maxId: nat, digest: Digest)

  datatype Tables = Tables(rows: seq<Record>, nextId: nat, archives: map<int, Archive>)

  type Files = map<Path, seq<Record>>

  /** A day with records its archive does not hold, as one query reports it. */
  datatype Candidate = Candidate(day: int, count: nat, maxId: nat, archived: Option<Archive>)

  /** The database and the directory, every record ever stored, and the days whose archive began to expire. */
  datatype World = World(tables: Tables, files: Files, stored: seq<Record>, expired: set<int>)

  // ---------------------------------------------------------------------------------------------
  // Queries
  // ---------------------------------------------------------------------------------------------

  function OfDay(rows: seq<Record>, day: int): seq<Record> {
    if rows == [] then []
    else
      var back := rows[|rows| - 1];
      OfDay(rows[..|rows| - 1], day) + if back.access.day == day then [back] else []
  }

  /** The records of a day above an ID. */
  function After(rows: seq<Record>, day: int, floor: nat): seq<Record> {
    if rows == [] then []
    else
      var back := rows[|rows| - 1];
      After(rows[..|rows| - 1], day, floor) + if back.access.day == day && back.id > floor then [back] else []
  }

  function Floor(tables: Tables, day: int): nat {
    if day in tables.archives then tables.archives[day].maxId else 0
  }

  function Archived(tables: Tables, day: int): seq<Record> {
    if day in tables.archives then tables.archives[day].digest.content else []
  }

  /** The records of a day that wait to be archived. */
  function Waiting(tables: Tables, day: int): seq<Record> {
    After(tables.rows, day, Floor(tables, day))
  }

  function ArchiveOf(tables: Tables, day: int): Option<Archive> {
    if day in tables.archives then Some(tables.archives[day]) else None
  }

  function CandidateFor(tables: Tables, day: int): Candidate
    requires Waiting(tables, day) != []
  {
    var waiting := Waiting(tables, day);
    var archived := ArchiveOf(tables, day);
    Candidate(day, (if archived.Some? then archived.value.count else 0) + |waiting|, waiting[|waiting| - 1].id, archived)
  }

  // ---------------------------------------------------------------------------------------------
  // Statements and file operations
  // ---------------------------------------------------------------------------------------------

  function FindIdentity(rows: seq<Record>, identity: string): (found: Option<Record>)
    ensures found.Some? ==> found.value in rows && found.value.access.identity == identity
    ensures found.None? ==> forall row | row in rows :: row.access.identity != identity
  {
    if rows == [] then None
    else if rows[|rows| - 1].access.identity == identity then Some(rows[|rows| - 1])
    else FindIdentity(rows[..|rows| - 1], identity)
  }

  /** Storing an access event: a known identity is accepted only with the same content. */
  function AfterStore(world: World, access: Access): (World, Option<Error>) {
    match FindIdentity(world.tables.rows, access.identity)
    case Some(existing) => (world, if existing.access.payload == access.payload then None else Some(Conflict))
    case None =>
      var record := Record(world.tables.nextId, access);
      (world.(tables := world.tables.(rows := world.tables.rows + [record], nextId := world.tables.nextId + 1),
              stored := world.stored + [record]), None)
  }

  /** An access event under a new identity is stored as it is, under the next ID; one under a known identity is accepted
      if its payload is the known one, and stored never again. */
  lemma StoringAddsTheAccess(world: World, access: Access)
    ensures var (next, error) := AfterStore(world, access);
            var known := exists row | row in world.tables.rows :: row.access.identity == access.identity;
      && next.files == world.files && next.expired == world.expired && next.tables.archives == world.tables.archives
      && (known ==> next == world)
      && (known && error == None ==>
            exists row | row in world.tables.rows ::
              row.access.identity == access.identity && row.access.payload == access.payload)
      && (known && error != None ==>
            exists row | row in world.tables.rows ::
              row.access.identity == access.identity && row.access.payload != access.payload)
      && (!known ==>
            && error == None && next.tables.nextId == world.tables.nextId + 1
            && |next.tables.rows| == |world.tables.rows| + 1 && next.tables.rows[..|world.tables.rows|] == world.tables.rows
            && |next.stored| == |world.stored| + 1 && next.stored[..|world.stored|] == world.stored
            && next.stored[|world.stored|] == next.tables.rows[|world.tables.rows|]
            && var record := next.tables.rows[|world.tables.rows|];
               && record.id == world.tables.nextId && record.access.identity == access.identity
               && record.access.day == access.day && record.access.observedAt == access.observedAt
               && record.access.payload == access.payload)
  {
  }

  /** The rows left when archived records observed before `cutoff` are deleted. */
  function Kept(rows: seq<Record>, tables: Tables, cutoff: int): seq<Record> {
    if rows == [] then []
    else
      var back := rows[|rows| - 1];
      Kept(rows[..|rows| - 1], tables, cutoff)
      + if back.access.observedAt < cutoff && back.access.day in tables.archives
           && tables.archives[back.access.day].maxId >= back.id then [] else [back]
  }

  function AfterPrune(world: World, cutoff: int): World {
    world.(tables := world.tables.(rows := Kept(world.tables.rows, world.tables, cutoff)))
  }

  function Renamed(files: Files, from: Path, to: Path): Files
    requires from in files
  {
    files[to := files[from]] - {from}
  }

  function AfterRecord(world: World, day: int, archive: Archive): World {
    world.(tables := world.tables.(archives := world.tables.archives[day := archive]))
  }

  // ---------------------------------------------------------------------------------------------
  // Invariant
  // ---------------------------------------------------------------------------------------------

  ghost predicate Ascending(rows: seq<Record>) {
    forall i, j | 0 <= i < j < |rows| :: rows[i].id < rows[j].id
  }

  ghost predicate Below(rows: seq<Record>, bound: nat) {
    forall i | 0 <= i < |rows| :: 1 <= rows[i].id < bound
  }

  /** A recorded archive describes its content. */
  ghost predicate Sound(tables: Tables, day: int) {
    day in tables.archives ==>
      var archive := tables.archives[day];
      var content := archive.digest.content;
      && archive.path == Destination(day)
      && content != []
      && archive.count == |content|
      && archive.maxId == content[|content| - 1].id
      && Ascending(content)
      && Below(content, tables.nextId)
  }

  /** Some file has the recorded digest. */
  ghost predicate Restorable(world: World, day: int) {
    day in world.tables.archives ==>
      || (Destination(day) in world.files && world.files[Destination(day)] == Archived(world.tables, day))
      || (Backup(day) in world.files && world.files[Backup(day)] == Archived(world.tables, day))
  }

  /** The archived records followed by the waiting ones are exactly the records ever stored for the day. */
  ghost predicate Conserved(world: World, day: int) {
    Archived(world.tables, day) + Waiting(world.tables, day) == OfDay(world.stored, day)
  }

  ghost predicate Remembered(rows: seq<Record>, stored: seq<Record>) {
    forall i | 0 <= i < |rows| :: rows[i] in stored
  }

  ghost predicate Invariant(world: World) {
    && world.tables.nextId >= 1
    && Remembered(world.tables.rows, world.stored)
    && Ascending(world.tables.rows) && Below(world.tables.rows, world.tables.nextId)
    && Ascending(world.stored) && Below(world.stored, world.tables.nextId)
    && (forall day :: Sound(world.tables, day))
    && (forall day | day !in world.expired :: Restorable(world, day) && Conserved(world, day))
  }

  // ---------------------------------------------------------------------------------------------
  // Filters
  // ---------------------------------------------------------------------------------------------

  lemma {:induction false} FiltersSplit(rows: seq<Record>, added: seq<Record>, day: int, floor: nat)
    ensures OfDay(rows + added, day) == OfDay(rows, day) + OfDay(added, day)
    ensures After(rows + added, day, floor) == After(rows, day, floor) + After(added, day, floor)
  {
    if added == [] {
      assert rows + added == rows;
    } else {
      var front := added[..|added| - 1];
      assert (rows + added)[..|rows + added| - 1] == rows + front;
      FiltersSplit(rows, front, day, floor);
    }
  }

  lemma {:induction false} AllAbove(rows: seq<Record>, day: int, floor: nat)
    requires forall i | 0 <= i < |rows| :: rows[i].id > floor
    ensures After(rows, day, floor) == OfDay(rows, day)
  {
    if rows != [] {
      AllAbove(rows[..|rows| - 1], day, floor);
    }
  }

  /** Raising the floor to the last record above it leaves nothing. */
  lemma {:induction false} NothingAbove(rows: seq<Record>, day: int, floor: nat, raised: nat)
    requires floor <= raised
    requires forall i | 0 <= i < |After(rows, day, floor)| :: After(rows, day, floor)[i].id <= raised
    ensures After(rows, day, raised) == []
  {
    if rows != [] {
      var front, back := rows[..|rows| - 1], rows[|rows| - 1];
      var waiting := After(rows, day, floor);
      if back.access.day == day && back.id > floor {
        assert waiting[|waiting| - 1] == back;
        assert waiting[..|waiting| - 1] == After(front, day, floor);
      } else {
        assert waiting == After(front, day, floor);
      }
      assert forall i | 0 <= i < |After(front, day, floor)| :: After(front, day, floor)[i] == waiting[i];
      NothingAbove(front, day, floor, raised);
    }
  }

  lemma {:induction false} AfterIsAscending(rows: seq<Record>, day: int, floor: nat)
    requires Ascending(rows)
    ensures Ascending(After(rows, day, floor))
    ensures forall i | 0 <= i < |After(rows, day, floor)| ::
      After(rows, day, floor)[i] in rows && After(rows, day, floor)[i].id > floor
  {
    if rows != [] {
      var front, back := rows[..|rows| - 1], rows[|rows| - 1];
      AfterIsAscending(front, day, floor);
      assert forall row | row in front :: row.id < back.id;
    }
  }

  lemma {:induction false} KeptIsAscending(rows: seq<Record>, tables: Tables, cutoff: int)
    requires Ascending(rows)
    ensures Ascending(Kept(rows, tables, cutoff))
    ensures forall i | 0 <= i < |Kept(rows, tables, cutoff)| :: Kept(rows, tables, cutoff)[i] in rows
  {
    if rows != [] {
      var front, back := rows[..|rows| - 1], rows[|rows| - 1];
      KeptIsAscending(front, tables, cutoff);
      assert forall row | row in front :: row.id < back.id;
    }
  }

  /** Pruning takes only records an archive holds. */
  lemma {:induction false} KeptIsWaiting(rows: seq<Record>, tables: Tables, cutoff: int, day: int)
    ensures After(Kept(rows, tables, cutoff), day, Floor(tables, day)) == After(rows, day, Floor(tables, day))
  {
    if rows != [] {
      var front, back := rows[..|rows| - 1], rows[|rows| - 1];
      KeptIsWaiting(front, tables, cutoff, day);
      var kept := Kept(front, tables, cutoff);
      FiltersSplit(kept, [back], day, Floor(tables, day));
      assert kept + [] == kept;
    }
  }

  // ---------------------------------------------------------------------------------------------
  // What keeps the invariant
  // ---------------------------------------------------------------------------------------------

  /** Records were stored, at the end and with higher IDs. */
  ghost predicate Extended(before: World, after: World) {
    && |before.stored| <= |after.stored|
    && after.stored == before.stored + Arrivals(before, after)
    && after.tables.rows == before.tables.rows + Arrivals(before, after)
    && after.expired == before.expired
    && before.tables.nextId <= after.tables.nextId
    && forall i | 0 <= i < |Arrivals(before, after)| :: Arrivals(before, after)[i].id >= before.tables.nextId
  }

  /** Records were stored, nothing else happened to the tables. */
  ghost predicate Appended(before: World, after: World) {
    Extended(before, after) && after.tables.archives == before.tables.archives
  }

  function Arrivals(before: World, after: World): seq<Record> {
    if |before.stored| <= |after.stored| then after.stored[|before.stored|..] else []
  }

  lemma NothingAppended(world: World, files: Files)
    ensures Appended(world, world.(files := files))
  {
  }

  lemma AppendedCompose(first: World, second: World, third: World)
    requires Appended(first, second) && Appended(second, third)
    ensures Appended(first, third)
  {
    ExtendedCompose(first, second, third);
  }

  lemma ExtendedCompose(first: World, second: World, third: World)
    requires Extended(first, second) && Extended(second, third)
    ensures Extended(first, third)
  {
    var a, b := Arrivals(first, second), Arrivals(second, third);
    assert third.stored == first.stored + (a + b);
    assert Arrivals(first, third) == a + b;
    assert third.tables.rows == first.tables.rows + (a + b);
  }

  lemma OneMoreIsAscending(rows: seq<Record>, bound: nat, access: Access)
    requires Ascending(rows) && Below(rows, bound) && bound >= 1
    ensures Ascending(rows + [Record(bound, access)]) && Below(rows + [Record(bound, access)], bound + 1)
  {
  }

  function WithRecord(world: World, record: Record): World {
    world.(tables := world.tables.(rows := world.tables.rows + [record], nextId := world.tables.nextId + 1),
           stored := world.stored + [record])
  }

  /** A new record waits on its day, whatever is archived. */
  lemma NewRecordWaits(rows: seq<Record>, record: Record, day: int, floor: nat)
    requires floor < record.id
    ensures After(rows + [record], day, floor) == After(rows, day, floor) + OfDay([record], day)
  {
    FiltersSplit(rows, [record], day, floor);
    AllAbove([record], day, floor);
  }

  lemma StoringConserves(world: World, record: Record, day: int)
    requires Floor(world.tables, day) < record.id
    requires Conserved(world, day)
    ensures Conserved(WithRecord(world, record), day)
  {
    NewRecordWaits(world.tables.rows, record, day, Floor(world.tables, day));
    FiltersSplit(world.stored, [record], day, 0);
    hide After, OfDay;
    assert Archived(world.tables, day) + Waiting(world.tables, day) + OfDay([record], day)
        == Archived(world.tables, day) + (Waiting(world.tables, day) + OfDay([record], day));
  }

  lemma StoringKeepsSound(world: World, record: Record, day: int)
    requires Sound(world.tables, day)
    ensures Sound(WithRecord(world, record).tables, day)
  {
    hide Ascending;
  }

  /** A stored record is waiting on its day and disturbs no other day. */
  lemma StoringKeepsInvariant(world: World, access: Access)
    requires Invariant(world)
    ensures Invariant(AfterStore(world, access).0)
    ensures Appended(world, AfterStore(world, access).0)
    ensures AfterStore(world, access).0.files == world.files
  {
    hide Ascending, Below, Sound, Restorable, Conserved, Remembered;
    var next := AfterStore(world, access).0;
    if FindIdentity(world.tables.rows, access.identity).None? {
      var record := Record(world.tables.nextId, access);
      assert next == WithRecord(world, record);
      OneMoreIsAscending(world.tables.rows, world.tables.nextId, access);
      OneMoreIsAscending(world.stored, world.tables.nextId, access);
      OneMoreIsRemembered(world.tables.rows, world.stored, record);
      forall day
        ensures Sound(next.tables, day)
        ensures day !in world.expired ==> Restorable(next, day) && Conserved(next, day)
      {
        StoringKeepsDay(world, record, day);
      }
      hide FindIdentity;
      assert Arrivals(world, next) == [record];
    } else {
      NothingAppended(world, world.files);
    }
  }

  lemma OneMoreIsRemembered(rows: seq<Record>, stored: seq<Record>, record: Record)
    requires Remembered(rows, stored)
    ensures Remembered(rows + [record], stored + [record])
  {
  }

  lemma StoringKeepsDay(world: World, record: Record, day: int)
    requires Invariant(world) && record.id == world.tables.nextId
    ensures var next := WithRecord(world, record);
            Sound(next.tables, day) && (day !in world.expired ==> Restorable(next, day) && Conserved(next, day))
  {
    assert Sound(world.tables, day);
    assert day !in world.expired ==> Restorable(world, day) && Conserved(world, day);
    hide Ascending, Below, Invariant, Conserved;
    StoringKeepsSound(world, record, day);
    FloorIsBelow(world.tables, day);
    if day !in world.expired {
      StoringConserves(world, record, day);
    }
  }

  lemma FloorIsBelow(tables: Tables, day: int)
    requires Sound(tables, day) && tables.nextId >= 1
    ensures Floor(tables, day) < tables.nextId
  {
  }

  /** The files of one day changed. */
  ghost predicate OnlyFilesOf(before: Files, after: Files, day: int) {
    forall path: Path | path.day != day ::
      (path in before <==> path in after) && (path in before ==> after[path] == before[path])
  }

  lemma ChangingFilesKeepsInvariant(world: World, files: Files, day: int)
    requires Invariant(world) && OnlyFilesOf(world.files, files, day)
    requires day in world.expired || Restorable(world.(files := files), day)
    ensures Invariant(world.(files := files))
  {
    hide Ascending, Below, Sound;
    var next := world.(files := files);
    forall other | other !in world.expired
      ensures Restorable(next, other) && Conserved(next, other)
    {
      assert Restorable(world, other) && Conserved(world, other);
    }
  }

  /** Everything ever stored for a day, as its archive and the waiting records give it. */
  function Everything(tables: Tables, day: int): seq<Record> {
    Archived(tables, day) + Waiting(tables, day)
  }

  function ArchiveFor(day: int, content: seq<Record>): Archive
    requires content != []
  {
    Archive(Destination(day), |content|, content[|content| - 1].id, Digest(content))
  }

  lemma EverythingIsAscending(tables: Tables, day: int)
    requires Ascending(tables.rows) && Below(tables.rows, tables.nextId) && Sound(tables, day)
    ensures Ascending(Everything(tables, day)) && Below(Everything(tables, day), tables.nextId)
  {
    AfterIsAscending(tables.rows, day, Floor(tables, day));
    var archived, waiting := Archived(tables, day), Waiting(tables, day);
    forall i | 0 <= i < |waiting|
      ensures 1 <= waiting[i].id < tables.nextId
    {
      assert waiting[i] in tables.rows;
    }
    hide After;
    forall i, j | 0 <= i < j < |archived + waiting|
      ensures (archived + waiting)[i].id < (archived + waiting)[j].id
    {
      if i < |archived| <= j {
        assert archived[i].id <= archived[|archived| - 1].id < waiting[j - |archived|].id;
      }
    }
  }

  lemma LastIsHighest(front: seq<Record>, back: seq<Record>)
    requires Ascending(front + back) && front + back != []
    ensures var all := front + back;
            var last := all[|all| - 1].id;
      && (forall i | 0 <= i < |back| :: back[i].id <= last)
      && (front != [] ==> front[|front| - 1].id <= last)
  {
    var all := front + back;
    assert forall i | 0 <= i < |back| :: all[|front| + i] == back[i];
    assert front != [] ==> all[|front| - 1] == front[|front| - 1];
  }

  /** Nothing of a day stands above the last of everything. */
  lemma NothingAboveEverything(tables: Tables, day: int)
    requires Ascending(Everything(tables, day)) && Sound(tables, day)
    requires Everything(tables, day) != []
    ensures var content := Everything(tables, day); After(tables.rows, day, content[|content| - 1].id) == []
  {
    LastIsHighest(Archived(tables, day), Waiting(tables, day));
    var content := Everything(tables, day);
    var raised := content[|content| - 1].id;
    hide Ascending, Below;
    assert Floor(tables, day) <= raised;
    NothingAbove(tables.rows, day, Floor(tables, day), raised);
  }

  /** Once everything visited is archived, only what arrived since is waiting. */
  lemma OnlyArrivalsWait(before: World, after: World, day: int, raised: nat)
    requires Appended(before, after) && raised < before.tables.nextId
    requires After(before.tables.rows, day, raised) == []
    ensures After(after.tables.rows, day, raised) == OfDay(Arrivals(before, after), day)
  {
    var arrivals := Arrivals(before, after);
    FiltersSplit(before.tables.rows, arrivals, day, raised);
    AllAbove(arrivals, day, raised);
    hide After, OfDay;
    assert [] + OfDay(arrivals, day) == OfDay(arrivals, day);
  }

  lemma RecordingIsSound(tables: Tables, day: int, content: seq<Record>)
    requires content != [] && Ascending(content) && Below(content, tables.nextId)
    ensures Sound(tables.(archives := tables.archives[day := ArchiveFor(day, content)]), day)
  {
    hide Ascending, Below;
  }

  /** Archiving everything visited conserves the day: only the arrivals wait. */
  lemma RecordingConserves(before: World, after: World, day: int)
    requires Sound(before.tables, day) && Appended(before, after) && Everything(before.tables, day) != []
    requires Ascending(Everything(before.tables, day)) && Below(Everything(before.tables, day), before.tables.nextId)
    requires Conserved(before, day)
    ensures Conserved(AfterRecord(after, day, ArchiveFor(day, Everything(before.tables, day))), day)
  {
    var content := Everything(before.tables, day);
    NothingAboveEverything(before.tables, day);
    OnlyArrivalsWait(before, after, day, content[|content| - 1].id);
    FiltersSplit(before.stored, Arrivals(before, after), day, 0);
    hide After, OfDay, Ascending, Below, Sound;
  }

  /** The recorded day: everything visited is archived, the arrivals wait. */
  lemma RecordingKeepsDay(before: World, after: World, day: int)
    requires Invariant(before) && Appended(before, after) && Everything(before.tables, day) != []
    requires Destination(day) in after.files && after.files[Destination(day)] == Everything(before.tables, day)
    ensures var next := AfterRecord(after, day, ArchiveFor(day, Everything(before.tables, day)));
            Sound(next.tables, day) && Restorable(next, day) && (day !in before.expired ==> Conserved(next, day))
  {
    assert Sound(before.tables, day) && (day !in before.expired ==> Conserved(before, day));
    EverythingIsAscending(before.tables, day);
    BelowGrows(Everything(before.tables, day), before.tables.nextId, after.tables.nextId);
    hide After, OfDay, Ascending, Below, Invariant, Conserved, Everything, Appended;
    RecordingIsSound(after.tables, day, Everything(before.tables, day));
    if day !in before.expired {
      RecordingConserves(before, after, day);
    }
  }

  lemma BelowGrows(rows: seq<Record>, bound: nat, higher: nat)
    requires Below(rows, bound) && bound <= higher
    ensures Below(rows, higher)
  {
  }

  /** Recording the archive of everything visited, with its file in place, keeps the invariant although
      records arrived since the visit. */
  lemma RecordingKeepsInvariant(before: World, after: World, day: int)
    requires Invariant(before) && Invariant(after) && Appended(before, after)
    requires Everything(before.tables, day) != []
    requires Destination(day) in after.files && after.files[Destination(day)] == Everything(before.tables, day)
    ensures Invariant(AfterRecord(after, day, ArchiveFor(day, Everything(before.tables, day))))
  {
    var next := AfterRecord(after, day, ArchiveFor(day, Everything(before.tables, day)));
    RecordingKeepsDay(before, after, day);
    forall other | other != day
      ensures Sound(next.tables, other)
      ensures other !in after.expired ==> Restorable(next, other) && Conserved(next, other)
    {
      RecordingKeepsOtherDay(after, day, ArchiveFor(day, Everything(before.tables, day)), other);
    }
    hide Sound, Restorable, Conserved, Ascending, Below;
  }

  lemma RecordingKeepsOtherDay(world: World, day: int, archive: Archive, other: int)
    requires Invariant(world) && other != day
    ensures var next := AfterRecord(world, day, archive);
            Sound(next.tables, other) && (other !in world.expired ==> Restorable(next, other) && Conserved(next, other))
  {
    hide Ascending, Below, After, OfDay;
    var next := AfterRecord(world, day, archive);
    assert Sound(world.tables, other);
    assert Waiting(next.tables, other) == Waiting(world.tables, other);
    if other !in world.expired {
      assert Restorable(world, other) && Conserved(world, other);
    }
  }

  /** A row is deleted exactly when it is old and its day's archive reaches its ID. */
  predicate Deleted(row: Record, tables: Tables, cutoff: int) {
    row.access.observedAt < cutoff && row.access.day in tables.archives
    && tables.archives[row.access.day].maxId >= row.id
  }

  lemma {:induction false} KeptExactly(rows: seq<Record>, tables: Tables, cutoff: int, row: Record)
    ensures row in Kept(rows, tables, cutoff) <==> row in rows && !Deleted(row, tables, cutoff)
  {
    if rows != [] {
      KeptExactly(rows[..|rows| - 1], tables, cutoff, row);
    }
  }

  lemma {:induction false} OfDayHolds(rows: seq<Record>, row: Record)
    requires row in rows
    ensures row in OfDay(rows, row.access.day)
  {
    if row in rows[..|rows| - 1] {
      OfDayHolds(rows[..|rows| - 1], row);
    }
  }

  lemma AscendingSharesNothing(front: seq<Record>, back: seq<Record>, row: Record)
    requires Ascending(front + back)
    ensures !(row in front && row in back)
  {
    if row in front && row in back {
      var i :| 0 <= i < |front| && front[i] == row;
      var j :| 0 <= j < |back| && back[j] == row;
      SplitIsAscending(front, back, i, j);
    }
  }

  lemma SplitIsAscending(front: seq<Record>, back: seq<Record>, i: nat, j: nat)
    requires Ascending(front + back) && i < |front| && j < |back|
    ensures front[i].id < back[j].id
  {
    assert (front + back)[i] == front[i] && (front + back)[|front| + j] == back[j];
  }

  /** Conservation: for an unexpired day the archived records followed by the waiting ones are exactly the records ever
      stored for it, strictly ascending; each of them is in the archive or waits, and not both. */
  lemma EveryRecordIsKeptOnce(world: World, day: int)
    requires Invariant(world) && day !in world.expired
    ensures Everything(world.tables, day) == OfDay(world.stored, day) && Ascending(Everything(world.tables, day))
    ensures forall row | row in world.stored && row.access.day == day ::
      (row in Archived(world.tables, day)) != (row in Waiting(world.tables, day))
  {
    assert Conserved(world, day) && Sound(world.tables, day);
    EverythingIsAscending(world.tables, day);
    hide After, OfDay, Invariant, Ascending, Sound, Conserved;
    forall row | row in world.stored && row.access.day == day
      ensures (row in Archived(world.tables, day)) != (row in Waiting(world.tables, day))
    {
      OfDayHolds(world.stored, row);
      AscendingSharesNothing(Archived(world.tables, day), Waiting(world.tables, day), row);
    }
  }

  /** A deleted record is in the archive of its day. */
  lemma DeletedRecordsAreArchived(world: World, cutoff: int, row: Record)
    requires Invariant(world) && row in world.tables.rows && row.access.day !in world.expired
    requires row !in AfterPrune(world, cutoff).tables.rows
    ensures row in Archived(world.tables, row.access.day)
  {
    var day := row.access.day;
    KeptExactly(world.tables.rows, world.tables, cutoff, row);
    assert Conserved(world, day);
    assert row in world.stored;
    OfDayHolds(world.stored, row);
    AfterIsAscending(world.tables.rows, day, Floor(world.tables, day));
    hide After, OfDay, Kept, Invariant, Ascending;
    var archived, waiting := Archived(world.tables, day), Waiting(world.tables, day);
    assert row in archived + waiting;
    assert forall i | 0 <= i < |waiting| :: waiting[i].id > Floor(world.tables, day);
  }

  lemma PruningKeepsInvariant(world: World, cutoff: int)
    requires Invariant(world)
    ensures Invariant(AfterPrune(world, cutoff))
  {
    var next := AfterPrune(world, cutoff);
    KeptIsAscending(world.tables.rows, world.tables, cutoff);
    assert forall row | row in world.tables.rows :: 1 <= row.id < world.tables.nextId;
    hide Ascending, Kept;
    forall day
      ensures Sound(next.tables, day)
      ensures day !in world.expired ==> Restorable(next, day) && Conserved(next, day)
    {
      KeptIsWaiting(world.tables.rows, world.tables, cutoff, day);
      assert Sound(world.tables, day);
      assert day !in world.expired ==> Restorable(world, day) && Conserved(world, day);
    }
  }

  /** A day whose archive begins to expire leaves the invariant; the other days are not touched. */
  lemma ExpiringKeepsInvariant(world: World, day: int, files: Files, archives: map<int, Archive>)
    requires Invariant(world) && OnlyFilesOf(world.files, files, day)
    requires archives == world.tables.archives || archives == world.tables.archives - {day}
    ensures Invariant(World(world.tables.(archives := archives), files, world.stored, world.expired + {day}))
  {
    hide Ascending, Below, After, OfDay;
    var next := World(world.tables.(archives := archives), files, world.stored, world.expired + {day});
    forall other
      ensures Sound(next.tables, other)
      ensures other !in next.expired ==> Restorable(next, other) && Conserved(next, other)
    {
      assert Sound(world.tables, other);
      if other !in next.expired {
        assert Restorable(world, other) && Conserved(world, other);
        assert Waiting(next.tables, other) == Waiting(world.tables, other);
      }
    }
  }
}
