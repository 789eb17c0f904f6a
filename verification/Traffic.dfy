/** Traffic periods: the last-writer fold of snapshots into one row per authorization and period. */
module Traffic {
  import opened Outcomes

  datatype Key = Key(authorization: string, period: string)

  datatype Counters = Counters(revision: nat, upload: nat, download: nat)

  datatype Snapshot = Snapshot(key: Key, startsAt: int, endsAt: Option<int>, counters: Counters)

  /** Where a snapshot came from; times are in nanoseconds. */
  datatype Source = Source(node: string, stream: string, sequence: nat, observedAt: int, receivedAt: int)

  datatype Report = Report(source: Source, snapshot: Snapshot)

  /** The zero value of a time, the start of the year 1. */
  const ZERO_TIME := -62135596800 * 1000000000

  datatype Period = Period(startsAt: int, endsAt: Option<int>, counters: Counters,
                           observedAt: int, stream: string, sequence: nat, updatedAt: int)

  type Table = map<Key, Period>

  function PeriodOf(report: Report): Period {
    Period(report.snapshot.startsAt, report.snapshot.endsAt, report.snapshot.counters,
           report.source.observedAt, report.source.stream, report.source.sequence, report.source.receivedAt)
  }

  /** What one snapshot does to the row of its own period. */
  function Merge(stored: Option<Period>, report: Report): Result<Period> {
    match stored
    case None => Ok(PeriodOf(report))
    case Some(row) =>
      var same := row.counters == report.snapshot.counters;
      if row.stream == report.source.stream then
        if row.sequence > report.source.sequence then Ok(row)
        else if row.sequence < report.source.sequence then Ok(PeriodOf(report))
        else if same then Ok(row) else Err(Conflict)
      else
        if row.observedAt > report.source.observedAt then Ok(row)
        else if row.observedAt < report.source.observedAt then Ok(PeriodOf(report))
        else if same then Ok(row) else Err(Conflict)
  }

  function RowAt(table: Table, key: Key): Option<Period> {
    if key in table then Some(table[key]) else None
  }

  /** The node of every known authorization, and the largest sequence of the event format. */
  datatype Rules = Rules(owners: map<string, string>, maximum: nat)

  predicate ValidSource(source: Source, maximum: nat) {
    && source.node != "" && source.stream != "" && 0 < source.sequence <= maximum
    && source.observedAt != ZERO_TIME && source.receivedAt != ZERO_TIME
  }

  function Apply(rules: Rules, table: Table, report: Report): Result<Table> {
    var key := report.snapshot.key;
    if !ValidSource(report.source, rules.maximum) then Err(Invalid)
    else if key.authorization !in rules.owners then Ok(table)
    else if rules.owners[key.authorization] != report.source.node then Err(Conflict)
    else
      match Merge(RowAt(table, key), report)
      case Err(error) => Err(error)
      case Ok(row) => Ok(table[key := row])
  }

  /** The table of traffic periods, updated by one transaction per snapshot. */
  class TrafficStore {
    const rules: Rules
    var periods: Table

    constructor (rules: Rules)
      ensures this.rules == rules && periods == map[]
    {
      this.rules := rules;
      periods := map[];
    }

    method ApplyTrafficSnapshot(source: Source, value: Snapshot) returns (error: Option<Error>)
      modifies this
      ensures match Apply(rules, old(periods), Report(source, value))
              case Ok(table) => error == None && periods == table
              case Err(reason) => error == Some(reason) && periods == old(periods)
    {
      if source.node == "" || source.stream == "" || source.sequence == 0 || source.sequence > rules.maximum
         || source.observedAt == ZERO_TIME || source.receivedAt == ZERO_TIME {
        return Some(Invalid);
      }
      if value.key.authorization !in rules.owners {
        return None;
      }
      if rules.owners[value.key.authorization] != source.node {
        return Some(Conflict);
      }
      if value.key in periods {
        var row := periods[value.key];
        assert periods[value.key := row] == periods;
        var sameSnapshot := row.counters == value.counters;
        if row.stream == source.stream && row.sequence > source.sequence {
          return None;
        } else if row.stream == source.stream && row.sequence == source.sequence {
          return if sameSnapshot then None else Some(Conflict);
        } else if row.stream != source.stream && row.observedAt > source.observedAt {
          return None;
        } else if row.stream != source.stream && row.observedAt == source.observedAt {
          return if sameSnapshot then None else Some(Conflict);
        }
      }
      periods := periods[value.key := PeriodOf(Report(source, value))];
      return None;
    }
  }

  // ---------------------------------------------------------------------------------------------
  // One snapshot
  // ---------------------------------------------------------------------------------------------

  predicate Complete(source: Source, maximum: nat) {
    && source.node != "" && source.stream != "" && source.sequence != 0 && source.sequence <= maximum
    && source.observedAt != ZERO_TIME && source.receivedAt != ZERO_TIME
  }

  /** An incomplete source is invalid, an unknown authorization is passed over, a foreign one is a conflict. */
  lemma SnapshotNeedsItsOwner(rules: Rules, table: Table, report: Report)
    ensures var known := report.snapshot.key.authorization in rules.owners;
            var owned := known && rules.owners[report.snapshot.key.authorization] == report.source.node;
            var result := Apply(rules, table, report);
      && (!Complete(report.source, rules.maximum) ==> result == Err(Invalid))
      && (Complete(report.source, rules.maximum) && !known ==> result == Ok(table))
      && (Complete(report.source, rules.maximum) && known && !owned ==> result == Err(Conflict))
  {
  }

  /** The row at which a snapshot arrives is of an earlier sequence of its stream, or of an earlier observation of
      another stream. */
  predicate IsLater(report: Report, row: Period) {
    if row.stream == report.source.stream then row.sequence < report.source.sequence
    else row.observedAt < report.source.observedAt
  }

  predicate IsLevel(report: Report, row: Period) {
    if row.stream == report.source.stream then row.sequence == report.source.sequence
    else row.observedAt == report.source.observedAt
  }

  /** A snapshot of an own authorization takes the row of its period exactly if there is none or it is later; at the same
      place or instant it must say the same; and no other row changes. */
  lemma SnapshotIsStoredExactlyWhenLater(rules: Rules, table: Table, report: Report)
    requires Complete(report.source, rules.maximum) && report.snapshot.key.authorization in rules.owners
    requires rules.owners[report.snapshot.key.authorization] == report.source.node
    ensures var key, result := report.snapshot.key, Apply(rules, table, report);
      && (result.Err? <==> key in table && IsLevel(report, table[key]) && table[key].counters != report.snapshot.counters)
      && (result.Err? ==> result.error == Conflict)
      && (result.Ok? ==>
            && result.value.Keys == table.Keys + {key}
            && (forall other | other in table && other != key :: result.value[other] == table[other])
            && var row := result.value[key];
               if key in table && !IsLater(report, table[key]) then row == table[key]
               else
                 && row.startsAt == report.snapshot.startsAt && row.endsAt == report.snapshot.endsAt
                 && row.counters.revision == report.snapshot.counters.revision
                 && row.counters.upload == report.snapshot.counters.upload
                 && row.counters.download == report.snapshot.counters.download
                 && row.stream == report.source.stream && row.sequence == report.source.sequence
                 && row.observedAt == report.source.observedAt && row.updatedAt == report.source.receivedAt)
  {
  }

  // ---------------------------------------------------------------------------------------------
  // Replay and confluence
  // ---------------------------------------------------------------------------------------------

  /** Delivering a snapshot again right after it was applied changes nothing. */
  lemma ApplyIsIdempotent(rules: Rules, table: Table, report: Report)
    requires Apply(rules, table, report).Ok?
    ensures var after := Apply(rules, table, report).value; Apply(rules, after, report) == Ok(after)
  {
    var key := report.snapshot.key;
    if ValidSource(report.source, rules.maximum) && key.authorization in rules.owners {
      var after := Apply(rules, table, report).value;
      assert after[key := after[key]] == after;
    }
  }

  /** Snapshots of one period, applied in order. */
  function MergeAll(row: Option<Period>, reports: seq<Report>): Result<Option<Period>> {
    if reports == [] then Ok(row)
    else
      match MergeAll(row, reports[..|reports| - 1])
      case Err(error) => Err(error)
      case Ok(before) =>
        match Merge(before, reports[|reports| - 1])
        case Err(error) => Err(error)
        case Ok(after) => Ok(Some(after))
  }

  /** Observation time strictly rises with sequence inside a stream, a sequence names one snapshot, and
      streams that observe at the same instant agree on the counters. */
  ghost predicate Coherent(reports: seq<Report>) {
    forall a, b | a in reports && b in reports :: Agree(a, b)
  }

  predicate Agree(a: Report, b: Report) {
    && (a.source.stream == b.source.stream && a.source.sequence < b.source.sequence
        ==> a.source.observedAt < b.source.observedAt)
    && (a.source.stream == b.source.stream && a.source.sequence == b.source.sequence
        ==> a.source.observedAt == b.source.observedAt && a.snapshot.counters == b.snapshot.counters)
    && (a.source.stream != b.source.stream && a.source.observedAt == b.source.observedAt
        ==> a.snapshot.counters == b.snapshot.counters)
  }

  /** Any order and any repetition of coherent snapshots is accepted and leaves the latest-observed one. */
  lemma {:induction false} LatestObservationWins(reports: seq<Report>, index: nat) returns (winner: nat)
    requires Coherent(reports) && 0 < index <= |reports|
    ensures winner < index
    ensures MergeAll(None, reports[..index]) == Ok(Some(PeriodOf(reports[winner])))
    ensures forall i | 0 <= i < index ::
      && reports[i].source.observedAt <= reports[winner].source.observedAt
      && (reports[i].source.observedAt == reports[winner].source.observedAt
          ==> reports[i].snapshot.counters == reports[winner].snapshot.counters)
    decreases index
  {
    var prefix := reports[..index];
    assert prefix[..index - 1] == reports[..index - 1];
    var last := reports[index - 1];
    assert last in reports;
    if index == 1 {
      winner := 0;
    } else {
      var best := LatestObservationWins(reports, index - 1);
      assert reports[best] in reports && Agree(reports[best], last) && Agree(last, reports[best]);
      forall i | 0 <= i < index - 1
        ensures Agree(reports[i], last) && Agree(last, reports[i]) && Agree(reports[i], reports[best])
      {
        assert reports[i] in reports;
      }
      var kept := Merge(Some(PeriodOf(reports[best])), last);
      winner := if kept == Ok(PeriodOf(reports[best])) then best else index - 1;
    }
  }

  /** A snapshot as its sender knows it, without the time it was received. */
  function Sent(report: Report): Report {
    report.(source := report.source.(receivedAt := 0))
  }

  ghost predicate Covers(left: seq<Report>, right: seq<Report>) {
    forall a | a in left :: exists b :: b in right && Sent(a) == Sent(b)
  }

  /** The same snapshots were sent, whenever each of them was received and however often. */
  ghost predicate SameSnapshots(left: seq<Report>, right: seq<Report>) {
    Covers(left, right) && Covers(right, left)
  }

  lemma CoveredIsCoherent(left: seq<Report>, right: seq<Report>)
    requires Coherent(left) && Covers(right, left)
    ensures Coherent(right)
  {
    forall a, b | a in right && b in right
      ensures Agree(a, b)
    {
      var x :| x in left && Sent(a) == Sent(x);
      var y :| y in left && Sent(b) == Sent(y);
      assert Agree(x, y);
    }
  }

  lemma Latest(reports: seq<Report>) returns (winner: nat)
    requires Coherent(reports) && reports != []
    ensures winner < |reports| && MergeAll(None, reports) == Ok(Some(PeriodOf(reports[winner])))
    ensures forall i | 0 <= i < |reports| ::
      && reports[i].source.observedAt <= reports[winner].source.observedAt
      && (reports[i].source.observedAt == reports[winner].source.observedAt
          ==> reports[i].snapshot.counters == reports[winner].snapshot.counters)
  {
    hide MergeAll, Coherent;
    winner := LatestObservationWins(reports, |reports|);
    assert reports[..|reports|] == reports;
  }

  /** The stored counters and their time depend only on which coherent snapshots were sent. */
  lemma TrafficIsConfluent(left: seq<Report>, right: seq<Report>)
    requires left != [] && Coherent(left) && SameSnapshots(left, right)
    ensures MergeAll(None, left).Ok? && MergeAll(None, right).Ok?
    ensures MergeAll(None, left).value.Some? && MergeAll(None, right).value.Some?
    ensures MergeAll(None, left).value.value.counters == MergeAll(None, right).value.value.counters
    ensures MergeAll(None, left).value.value.observedAt == MergeAll(None, right).value.value.observedAt
  {
    assert left[0] in left;
    CoveredIsCoherent(left, right);
    assert right != [] by {
      var twin :| twin in right && Sent(left[0]) == Sent(twin);
    }
    hide Coherent, Covers, Sent, MergeAll;
    var i := Latest(left);
    var j := Latest(right);
    var there := TwinIn(left, right, i);
    var here := TwinIn(right, left, j);
    assert right[there].source.observedAt == left[i].source.observedAt;
    assert left[here].source.observedAt == right[j].source.observedAt;
  }

  lemma TwinIn(left: seq<Report>, right: seq<Report>, i: nat) returns (j: nat)
    requires i < |left| && Covers(left, right)
    ensures j < |right| && right[j].snapshot == left[i].snapshot
    ensures right[j].source.(receivedAt := 0) == left[i].source.(receivedAt := 0)
  {
    assert left[i] in left;
    var twin :| twin in right && Sent(left[i]) == Sent(twin);
    j :| 0 <= j < |right| && right[j] == twin;
    assert Sent(left[i]).source == left[i].source.(receivedAt := 0) && Sent(twin).source == twin.source.(receivedAt := 0);
    assert Sent(left[i]).snapshot == left[i].snapshot && Sent(twin).snapshot == twin.snapshot;
  }

  /** Two snapshots of one period can arrive in either order exactly when they do not disagree at the
      same position of one stream or at the same instant of two streams. */
  lemma TwoSnapshotsCommute(a: Report, b: Report)
    ensures (&& MergeAll(None, [a, b]).Ok? && MergeAll(None, [b, a]).Ok?
             && MergeAll(None, [a, b]).value.value.counters == MergeAll(None, [b, a]).value.value.counters)
        <==> ((if a.source.stream == b.source.stream then a.source.sequence == b.source.sequence
               else a.source.observedAt == b.source.observedAt)
              ==> a.snapshot.counters == b.snapshot.counters)
  {
    assert [a, b][..1] == [a] && [b, a][..1] == [b];
    OneMerge(a);
    OneMerge(b);
  }

  lemma OneMerge(a: Report)
    ensures MergeAll(None, [a]) == Ok(Some(PeriodOf(a)))
  {
    assert [a][..0] == [];
    assert MergeAll(None, []) == Ok(None);
  }

  // ---------------------------------------------------------------------------------------------
  // Which logs of one period do not depend on their order
  // ---------------------------------------------------------------------------------------------

  /** The row of `a` replaces the row of `b`, and is kept when `b` comes later. */
  predicate Beats(a: Report, b: Report) {
    if a.source.stream == b.source.stream then a.source.sequence > b.source.sequence
    else a.source.observedAt > b.source.observedAt
  }

  predicate Disagree(a: Report, b: Report) {
    !Beats(a, b) && !Beats(b, a) && a.snapshot.counters != b.snapshot.counters
  }

  /** A row without the time it was received. */
  function Kept(row: Period): Period {
    row.(updatedAt := 0)
  }

  /** No two snapshots disagree, and one beats each of the others that would leave a different row. */
  ghost predicate Settled(reports: seq<Report>) {
    && (forall a, b | a in reports && b in reports :: !Disagree(a, b))
    && (exists best | best in reports :: Dominates(best, reports))
  }

  ghost predicate Dominates(best: Report, reports: seq<Report>) {
    forall other | other in reports :: Kept(PeriodOf(other)) == Kept(PeriodOf(best)) || Beats(best, other)
  }

  /** Every snapshot of this arrival is accepted, and the last row is `row`. */
  predicate EndsAs(reports: seq<Report>, row: Period) {
    match MergeAll(None, reports)
    case Err(_) => false
    case Ok(last) => last.Some? && Kept(last.value) == row
  }

  /** All orders of the snapshots end with this row. */
  ghost predicate AlwaysEndsAs(reports: seq<Report>, row: Period) {
    forall order | multiset(order) == multiset(reports) :: EndsAs(order, row)
  }

  /** A snapshot that dominates leaves its row in any order and with any repetition. */
  lemma {:induction false} DominatingRowStays(all: seq<Report>, best: Report, reports: seq<Report>)
    requires (forall a, b | a in all && b in all :: !Disagree(a, b)) && Dominates(best, all)
    requires reports != [] && forall report | report in reports :: report in all
    ensures var merged := MergeAll(None, reports);
      && merged.Ok? && merged.value.Some? && (exists a :: a in reports && merged.value.value == PeriodOf(a))
      && (best in reports ==> Kept(merged.value.value) == Kept(PeriodOf(best)))
  {
    var front, last := reports[..|reports| - 1], reports[|reports| - 1];
    assert last in reports && reports == front + [last];
    if front != [] {
      DominatingRowStays(all, best, front);
      var row := MergeAll(None, front).value.value;
      var a :| a in front && row == PeriodOf(a);
      assert a in reports && !Disagree(a, last);
    }
  }

  lemma {:induction false} MergeInParts(row: Option<Period>, first: seq<Report>, second: seq<Report>)
    ensures MergeAll(row, first + second)
         == match MergeAll(row, first)
            case Err(error) => Err(error)
            case Ok(middle) => MergeAll(middle, second)
  {
    if second == [] {
      assert first + second == first;
    } else {
      MergeInParts(row, first, second[..|second| - 1]);
      assert (first + second)[..|first + second| - 1] == first + second[..|second| - 1];
    }
  }

  /** A row holds out against snapshots that do not beat it. */
  lemma {:induction false} HoldsOut(first: Report, reports: seq<Report>)
    requires forall report | report in reports :: !Beats(report, first)
    ensures var merged := MergeAll(Some(PeriodOf(first)), reports); merged.Ok? ==> merged.value == Some(PeriodOf(first))
  {
    if reports != [] {
      assert reports[|reports| - 1] in reports;
      HoldsOut(first, reports[..|reports| - 1]);
    }
  }

  lemma {:induction false} NeverEndsAs(start: Period, reports: seq<Report>, row: Period)
    requires Kept(start) != row && forall report | report in reports :: Kept(PeriodOf(report)) != row
    ensures var merged := MergeAll(Some(start), reports);
      merged.Ok? ==> merged.value.Some? && Kept(merged.value.value) != row
  {
    if reports != [] {
      assert reports[|reports| - 1] in reports;
      NeverEndsAs(start, reports[..|reports| - 1], row);
    }
  }

  /** The snapshots that would leave this row, or those that would not. */
  function Leaving(reports: seq<Report>, row: Period, leaves: bool): seq<Report> {
    if reports == [] then []
    else
      var last := reports[|reports| - 1];
      Leaving(reports[..|reports| - 1], row, leaves) + if (Kept(PeriodOf(last)) == row) == leaves then [last] else []
  }

  lemma {:induction false} LeavingParts(reports: seq<Report>, row: Period)
    ensures multiset(Leaving(reports, row, true)) + multiset(Leaving(reports, row, false)) == multiset(reports)
    ensures forall report | report in Leaving(reports, row, true) :: Kept(PeriodOf(report)) == row
    ensures forall report | report in Leaving(reports, row, false) :: Kept(PeriodOf(report)) != row
  {
    if reports != [] {
      var front, last := reports[..|reports| - 1], reports[|reports| - 1];
      LeavingParts(front, row);
      assert reports == front + [last];
      hide Kept, PeriodOf;
    }
  }

  function Without(reports: seq<Report>, k: nat): seq<Report>
    requires k < |reports|
  {
    reports[..k] + reports[k + 1..]
  }

  lemma TakenOut(reports: seq<Report>, k: nat)
    requires k < |reports|
    ensures multiset(reports) == multiset{reports[k]} + multiset(Without(reports, k))
    ensures forall report | report in Without(reports, k) :: report in reports
  {
    assert reports == reports[..k] + [reports[k]] + reports[k + 1..];
  }

  lemma Reordered(reports: seq<Report>, first: seq<Report>, rest: seq<Report>, k: nat)
    requires k < |rest| && multiset(reports) == multiset(first) + multiset(rest)
    ensures multiset([rest[k]] + first + Without(rest, k)) == multiset(reports)
  {
    TakenOut(rest, k);
    hide Without;
    assert [rest[k]] + first + Without(rest, k) == [rest[k]] + (first + Without(rest, k));
  }

  /** The snapshot goes to the front, with those of `first` behind it and the rest at the end. */
  lemma Fronted(reports: seq<Report>, first: seq<Report>, rest: seq<Report>, other: Report) returns (others: seq<Report>)
    requires multiset(reports) == multiset(first) + multiset(rest) && other in reports && other !in first
    ensures multiset([other] + first + others) == multiset(reports)
    ensures forall report | report in others :: report in rest
  {
    assert other in multiset(reports) && other !in multiset(first);
    var k :| 0 <= k < |rest| && rest[k] == other;
    TakenOut(rest, k);
    Reordered(reports, first, rest, k);
    others := Without(rest, k);
  }

  lemma SomeOrderEndsOtherwise(reports: seq<Report>, order: seq<Report>, row: Period)
    requires multiset(order) == multiset(reports) && !EndsAs(order, row)
    ensures !AlwaysEndsAs(reports, row)
  {
  }

  lemma SpoiledOrder(other: Report, own: seq<Report>, others: seq<Report>, row: Period)
    requires Kept(PeriodOf(other)) != row && forall report | report in own :: !Beats(report, other)
    requires forall report | report in others :: Kept(PeriodOf(report)) != row
    ensures !EndsAs([other] + own + others, row)
  {
    OneMerge(other);
    MergeInParts(None, [other], own);
    MergeInParts(None, [other] + own, others);
    HoldsOut(other, own);
    hide Beats, MergeAll;
    NeverEndsAs(PeriodOf(other), others, row);
  }

  /** When some snapshot is neither beaten by the row's own snapshots nor like them, an order that begins with it
      and goes on with them does not end with that row. */
  lemma UnbeatenSpoils(reports: seq<Report>, other: Report, row: Period)
    requires other in reports && Kept(PeriodOf(other)) != row
    requires forall report | report in reports && Kept(PeriodOf(report)) == row :: !Beats(report, other)
    ensures !AlwaysEndsAs(reports, row)
  {
    var own, rest := Leaving(reports, row, true), Leaving(reports, row, false);
    LeavingParts(reports, row);
    assert forall report | report in own :: report in multiset(reports);
    var others := Fronted(reports, own, rest, other);
    hide Leaving, Beats, EndsAs, AlwaysEndsAs;
    SpoiledOrder(other, own, others, row);
    SomeOrderEndsOtherwise(reports, [other] + own + others, row);
  }

  /** All orders of the snapshots of one period are accepted and leave the same row exactly when no two of them
      disagree and one beats all that would leave another row. */
  lemma OrderDoesNotMatterExactlyWhen(reports: seq<Report>)
    requires reports != []
    ensures (exists row :: AlwaysEndsAs(reports, row)) <==> Settled(reports)
  {
    if Settled(reports) {
      var best :| best in reports && Dominates(best, reports);
      forall order | multiset(order) == multiset(reports)
        ensures EndsAs(order, Kept(PeriodOf(best)))
      {
        assert best in multiset(order) && (forall report | report in order :: report in multiset(reports));
        DominatingRowStays(reports, best, order);
      }
      assert AlwaysEndsAs(reports, Kept(PeriodOf(best)));
    }
    if row :| AlwaysEndsAs(reports, row) {
      SettledByOrders(reports, row);
    }
  }

  lemma SettledByOrders(reports: seq<Report>, row: Period)
    requires reports != [] && AlwaysEndsAs(reports, row)
    ensures Settled(reports)
  {
    assert EndsAs(reports, row);
    var best := LastIsOne(reports);
    assert Kept(PeriodOf(best)) == row;
    assert forall report, other | Kept(PeriodOf(report)) == row :: Beats(report, other) == Beats(best, other);
    hide MergeAll, PeriodOf;
    forall other | other in reports
      ensures Kept(PeriodOf(other)) == Kept(PeriodOf(best)) || Beats(best, other)
    {
      if Kept(PeriodOf(other)) != row && !Beats(best, other) {
        UnbeatenSpoils(reports, other, row);
      }
    }
    forall a, b | a in reports && b in reports
      ensures !Disagree(a, b)
    {
      if Disagree(a, b) {
        DisagreementIsRefused(reports, a, b, row);
      }
    }
  }

  /** The last row is that of one of the snapshots. */
  lemma {:induction false} LastIsOne(reports: seq<Report>) returns (best: Report)
    requires reports != [] && MergeAll(None, reports).Ok? && MergeAll(None, reports).value.Some?
    ensures best in reports && MergeAll(None, reports).value == Some(PeriodOf(best))
  {
    var front, last := reports[..|reports| - 1], reports[|reports| - 1];
    if front == [] {
      best := last;
    } else {
      assert MergeAll(None, front).Ok?;
      MergedIsSome(front);
      var before := LastIsOne(front);
      best := if MergeAll(None, reports).value == Some(PeriodOf(last)) then last else before;
    }
  }

  lemma MergedIsSome(reports: seq<Report>)
    requires reports != [] && MergeAll(None, reports).Ok?
    ensures MergeAll(None, reports).value.Some?
  {
  }

  lemma PairIsRefused(a: Report, b: Report)
    requires Disagree(a, b)
    ensures MergeAll(None, [a] + [b]).Err?
  {
    assert [a] + [b] == [a, b];
    assert [a, b][..1] == [a];
    OneMerge(a);
  }

  lemma DisagreementIsRefused(reports: seq<Report>, a: Report, b: Report, row: Period)
    requires a in reports && b in reports && Disagree(a, b)
    ensures !AlwaysEndsAs(reports, row)
  {
    var i :| 0 <= i < |reports| && reports[i] == a;
    var rest := Without(reports, i);
    TakenOut(reports, i);
    assert multiset([a]) == multiset{a};
    var others := Fronted(reports, [a], rest, b);
    PairIsRefused(b, a);
    hide Without, Disagree, MergeAll, AlwaysEndsAs;
    MergeInParts(None, [b] + [a], others);
    SomeOrderEndsOtherwise(reports, [b] + [a] + others, row);
  }

  /** Without rising observation times three snapshots that commute in pairs do not commute. */
  lemma RisingTimesAreNeeded(key: Key)
    ensures var first := Report(Source("n", "x", 1, 10, 0), Snapshot(key, 0, None, Counters(1, 1, 0)));
            var second := Report(Source("n", "x", 2, 5, 0), Snapshot(key, 0, None, Counters(2, 2, 0)));
            var other := Report(Source("n", "y", 1, 7, 0), Snapshot(key, 0, None, Counters(3, 3, 0)));
            && MergeAll(None, [first, second, other]) == Ok(Some(PeriodOf(other)))
            && MergeAll(None, [other, first, second]) == Ok(Some(PeriodOf(second)))
  {
    var first := Report(Source("n", "x", 1, 10, 0), Snapshot(key, 0, None, Counters(1, 1, 0)));
    var second := Report(Source("n", "x", 2, 5, 0), Snapshot(key, 0, None, Counters(2, 2, 0)));
    var other := Report(Source("n", "y", 1, 7, 0), Snapshot(key, 0, None, Counters(3, 3, 0)));
    ThreeMerges(first, second, other);
    ThreeMerges(other, first, second);
  }

  lemma ThreeMerges(a: Report, b: Report, c: Report)
    requires Merge(Some(PeriodOf(a)), b).Ok?
    ensures MergeAll(None, [a, b, c])
         == match Merge(Some(Merge(Some(PeriodOf(a)), b).value), c)
            case Ok(row) => Ok(Some(row))
            case Err(error) => Err(error)
  {
    assert [a, b, c][..2] == [a, b] && [a, b][..1] == [a];
    OneMerge(a);
    assert MergeAll(None, [a, b]) == Ok(Some(Merge(Some(PeriodOf(a)), b).value));
  }

  // ---------------------------------------------------------------------------------------------
  // A log of snapshots of many periods
  // ---------------------------------------------------------------------------------------------

  /** The snapshots of a log that belong to one period of an authorization known to its sender. */
  function Relevant(rules: Rules, reports: seq<Report>, key: Key): seq<Report> {
    if reports == [] then []
    else
      var last := reports[|reports| - 1];
      Relevant(rules, reports[..|reports| - 1], key)
      + if last.snapshot.key == key && key.authorization in rules.owners then [last] else []
  }

  function ApplyAll(rules: Rules, table: Table, reports: seq<Report>): Result<Table> {
    if reports == [] then Ok(table)
    else
      match ApplyAll(rules, table, reports[..|reports| - 1])
      case Err(error) => Err(error)
      case Ok(before) => Apply(rules, before, reports[|reports| - 1])
  }

  /** Periods do not disturb each other: each row is the fold of its own snapshots alone. */
  lemma {:induction false} PeriodsAreIndependent(rules: Rules, reports: seq<Report>, key: Key)
    requires ApplyAll(rules, map[], reports).Ok?
    ensures MergeAll(None, Relevant(rules, reports, key))
         == Ok(RowAt(ApplyAll(rules, map[], reports).value, key))
  {
    if reports != [] {
      var front := reports[..|reports| - 1];
      PeriodsAreIndependent(rules, front, key);
      var last := reports[|reports| - 1];
      if last.snapshot.key == key && key.authorization in rules.owners {
        var relevant := Relevant(rules, front, key) + [last];
        assert relevant[..|relevant| - 1] == Relevant(rules, front, key);
      } else {
        assert Relevant(rules, reports, key) == Relevant(rules, front, key);
      }
    }
  }

  lemma {:induction false} RelevantElements(rules: Rules, reports: seq<Report>, key: Key, report: Report)
    ensures report in Relevant(rules, reports, key)
       <==> report in reports && report.snapshot.key == key && key.authorization in rules.owners
  {
    if reports != [] {
      RelevantElements(rules, reports[..|reports| - 1], key, report);
      assert reports == reports[..|reports| - 1] + [reports[|reports| - 1]];
    }
  }

  /** Every sender is entitled to report, and the snapshots of each period are coherent. */
  ghost predicate Orderly(rules: Rules, reports: seq<Report>) {
    && (forall report | report in reports :: Entitled(rules, report))
    && (forall key :: Coherent(Relevant(rules, reports, key)))
  }

  predicate Entitled(rules: Rules, report: Report) {
    && ValidSource(report.source, rules.maximum)
    && (report.snapshot.key.authorization in rules.owners
        ==> rules.owners[report.snapshot.key.authorization] == report.source.node)
  }

  lemma OrderlyPrefix(rules: Rules, reports: seq<Report>)
    requires reports != [] && Orderly(rules, reports)
    ensures Orderly(rules, reports[..|reports| - 1])
  {
    var front := reports[..|reports| - 1];
    forall key
      ensures Coherent(Relevant(rules, front, key))
    {
      assert Coherent(Relevant(rules, reports, key));
      assert forall report | report in Relevant(rules, front, key) :: report in Relevant(rules, reports, key);
    }
  }

  /** An orderly log never meets a conflict. */
  lemma {:induction false} OrderlyLogsAreAccepted(rules: Rules, reports: seq<Report>)
    requires Orderly(rules, reports)
    ensures ApplyAll(rules, map[], reports).Ok?
  {
    if reports != [] {
      var front, last := reports[..|reports| - 1], reports[|reports| - 1];
      OrderlyPrefix(rules, reports);
      OrderlyLogsAreAccepted(rules, front);
      assert Entitled(rules, last);
      var key := last.snapshot.key;
      if key.authorization in rules.owners {
        PeriodsAreIndependent(rules, front, key);
        var relevant := Relevant(rules, reports, key);
        assert relevant[..|relevant| - 1] == Relevant(rules, front, key);
        assert Coherent(relevant);
        var winner := LatestObservationWins(relevant, |relevant|);
        assert relevant[..|relevant|] == relevant;
      }
    }
  }

  /** Orderly logs of the same snapshots are accepted and store the same counters for every period,
      whatever the order, the repetitions and the times of reception. */
  lemma LogsAreConfluent(rules: Rules, left: seq<Report>, right: seq<Report>, key: Key)
    requires Orderly(rules, left) && SameSnapshots(left, right)
    requires forall report | report in right :: report.source.receivedAt != ZERO_TIME
    ensures ApplyAll(rules, map[], left).Ok? && ApplyAll(rules, map[], right).Ok?
    ensures var a := RowAt(ApplyAll(rules, map[], left).value, key);
            var b := RowAt(ApplyAll(rules, map[], right).value, key);
            && a.Some? == b.Some?
            && (a.Some? ==> a.value.counters == b.value.counters && a.value.observedAt == b.value.observedAt)
  {
    SameSnapshotsAreOrderly(rules, left, right);
    OrderlyLogsAreAccepted(rules, left);
    OrderlyLogsAreAccepted(rules, right);
    PeriodsAreIndependent(rules, left, key);
    PeriodsAreIndependent(rules, right, key);
    assert Coherent(Relevant(rules, left, key));
    hide Orderly, Coherent, MergeAll, ApplyAll, Relevant;
    RelevantIsCovered(rules, left, right, key);
    RelevantIsCovered(rules, right, left, key);
    hide Covers;
    RelevantRows(Relevant(rules, left, key), Relevant(rules, right, key));
  }

  /** The same for the snapshots of one period, of which there may be none. */
  lemma RelevantRows(mine: seq<Report>, theirs: seq<Report>)
    requires Coherent(mine) && SameSnapshots(mine, theirs)
    ensures var a, b := MergeAll(None, mine), MergeAll(None, theirs);
      && a.Ok? && b.Ok? && a.value.Some? == b.value.Some?
      && (a.value.Some? ==> a.value.value.counters == b.value.value.counters && a.value.value.observedAt == b.value.value.observedAt)
  {
    assert theirs != [] ==> theirs[0] in theirs;
    if mine != [] {
      hide MergeAll, Coherent, SameSnapshots;
      TrafficIsConfluent(mine, theirs);
    }
  }

  lemma RelevantIsCovered(rules: Rules, left: seq<Report>, right: seq<Report>, key: Key)
    requires Covers(left, right)
    ensures Covers(Relevant(rules, left, key), Relevant(rules, right, key))
  {
    forall a | a in Relevant(rules, left, key)
      ensures exists b :: b in Relevant(rules, right, key) && Sent(a) == Sent(b)
    {
      RelevantElements(rules, left, key, a);
      var b :| b in right && Sent(a) == Sent(b);
      assert b.snapshot == Sent(b).snapshot;
      RelevantElements(rules, right, key, b);
    }
  }

  lemma SameSnapshotsAreOrderly(rules: Rules, left: seq<Report>, right: seq<Report>)
    requires Orderly(rules, left) && SameSnapshots(left, right)
    requires forall report | report in right :: report.source.receivedAt != ZERO_TIME
    ensures Orderly(rules, right)
  {
    forall report | report in right
      ensures Entitled(rules, report)
    {
      var i :| 0 <= i < |right| && right[i] == report;
      var j := TwinIn(right, left, i);
      assert left[j] in left && Entitled(rules, left[j]);
      hide Orderly, SameSnapshots, Covers;
    }
    forall key
      ensures Coherent(Relevant(rules, right, key))
    {
      assert Coherent(Relevant(rules, left, key));
      RelevantIsCovered(rules, right, left, key);
      CoveredIsCoherent(Relevant(rules, left, key), Relevant(rules, right, key));
    }
  }
}
