/** The authorization policy statuses agents report: the latest generation, then the latest observation, wins. */
module PolicyStatuses {
  import opened Outcomes

  datatype Status = Status(authorization: string, generation: nat, observedAt: int, content: string)

  type Table = map<string, Status>

  /** A status takes the place of another of the same rank. */
  predicate Supersedes(value: Status, stored: Status) {
    value.generation > stored.generation || (value.generation == stored.generation && value.observedAt >= stored.observedAt)
  }

  function Written(row: Option<Status>, value: Status): Option<Status> {
    if row.Some? && !Supersedes(value, row.value) then row else Some(value)
  }

  /** What a row becomes when statuses arrive in this order. */
  function WrittenAll(row: Option<Status>, values: seq<Status>): Option<Status> {
    if values == [] then row else Written(WrittenAll(row, values[..|values| - 1]), values[|values| - 1])
  }

  /** `owners` gives the node of each authorization. */
  class StatusStore {
    const owners: map<string, string>
    var rows: Table

    constructor (owners: map<string, string>)
      ensures this.owners == owners && rows == map[]
    {
      this.owners, rows := owners, map[];
    }

    function Row(authorization: string): Option<Status>
      reads this
    {
      if authorization in rows then Some(rows[authorization]) else None
    }

    /** Records a status. One for an unknown authorization is dropped, one from another node is a conflict. */
    method RecordAuthorizationPolicyStatus(node: string, value: Status) returns (error: Option<Error>)
      modifies this`rows
      ensures error == if value.authorization in owners && owners[value.authorization] != node then Some(Conflict) else None
      ensures Row(value.authorization) ==
        if value.authorization in owners && owners[value.authorization] == node
        then Written(old(Row(value.authorization)), value) else old(Row(value.authorization))
      ensures forall other | other != value.authorization :: Row(other) == old(Row(other))
    {
      if value.authorization !in owners {
        return None;
      }
      if owners[value.authorization] != node {
        return Some(Conflict);
      }
      if value.authorization in rows {
        var stored := rows[value.authorization];
        if value.generation > stored.generation
           || (value.generation == stored.generation && value.observedAt >= stored.observedAt) {
          rows := rows[value.authorization := value];
        }
      } else {
        rows := rows[value.authorization := value];
      }
      return None;
    }
  }

  predicate SameRank(a: Status, b: Status) {
    a.generation == b.generation && a.observedAt == b.observedAt
  }

  /** Statuses of one rank say the same. */
  ghost predicate Coherent(values: seq<Status>) {
    forall i, j | 0 <= i < |values| && 0 <= j < |values| && SameRank(values[i], values[j]) :: values[i] == values[j]
  }

  /** After any statuses the row holds one of them that supersedes them all. */
  lemma {:induction false} LatestStatusWins(values: seq<Status>) returns (winner: nat)
    requires values != []
    ensures winner < |values| && WrittenAll(None, values) == Some(values[winner])
    ensures forall i | 0 <= i < |values| ::
      values[i].generation < values[winner].generation
      || (values[i].generation == values[winner].generation && values[i].observedAt <= values[winner].observedAt)
  {
    var front, last := values[..|values| - 1], values[|values| - 1];
    winner := |values| - 1;
    if front != [] {
      var earlier := LatestStatusWins(front);
      assert forall i | 0 <= i < |front| :: Supersedes(front[earlier], values[i]);
      if !Supersedes(last, front[earlier]) {
        winner := earlier;
      }
    }
  }

  /** Any order and any repetition of coherent statuses of an authorization leaves the same row. */
  lemma StatusesAreConfluent(left: seq<Status>, right: seq<Status>)
    requires Coherent(left) && (forall value :: value in left <==> value in right)
    ensures WrittenAll(None, left) == WrittenAll(None, right)
  {
    if left != [] && right != [] {
      var i := LatestStatusWins(left);
      var j := LatestStatusWins(right);
      assert left[i] in right && right[j] in left;
      var k :| 0 <= k < |left| && left[k] == right[j];
      assert SameRank(left[i], left[k]);
    } else {
      SameElements(left, right);
    }
  }

  lemma SameElements(left: seq<Status>, right: seq<Status>)
    requires (forall value :: value in left <==> value in right) && (left == [] || right == [])
    ensures left == right
  {
    if |left| > 0 {
      FirstElement(left);
    }
    if |right| > 0 {
      FirstElement(right);
    }
  }

  lemma FirstElement(values: seq<Status>)
    requires values != []
    ensures exists value :: value in values
  {
    assert values[0] in values;
  }

  /** Two statuses commute exactly when they differ in rank or do not differ at all. */
  lemma TwoStatusesCommute(a: Status, b: Status)
    ensures WrittenAll(None, [a, b]) == WrittenAll(None, [b, a]) <==> !SameRank(a, b) || a == b
  {
    assert [a, b][..1] == [a] && [b, a][..1] == [b] && [a][..0] == [] && [b][..0] == [];
    assert WrittenAll(None, []) == None;
    assert WrittenAll(None, [a]) == Some(a) && WrittenAll(None, [b]) == Some(b);
  }

  /** Writing a status again, as a repeated delivery does, changes nothing. */
  lemma RedeliveryIsANoOp(row: Option<Status>, value: Status)
    ensures Written(Written(row, value), value) == Written(row, value)
  {
  }
}
