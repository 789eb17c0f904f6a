/** The sliding-window limiter of login and enrolment attempts. */
module AttemptLimiter {
  import opened Outcomes

  const MAX_KEYS := 4096

  type Attempts = map<string, seq<int>>

  // ---------------------------------------------------------------------------------------------
  // Trimming
  // ---------------------------------------------------------------------------------------------

  /** What is left when the leading attempts before the cutoff are dropped. */
  function Trimmed(values: seq<int>, cutoff: int): seq<int> {
    if values != [] && values[0] < cutoff then Trimmed(values[1..], cutoff) else values
  }

  function Pruned(attempts: Attempts, cutoff: int): Attempts {
    map key | key in attempts && Trimmed(attempts[key], cutoff) != [] :: Trimmed(attempts[key], cutoff)
  }

  function ValuesOf(attempts: Attempts, key: string): seq<int> {
    if key in attempts then attempts[key] else []
  }

  function Entry(attempts: Attempts, key: string): Option<seq<int>> {
    if key in attempts then Some(attempts[key]) else None
  }

  lemma SameEntries(a: Attempts, b: Attempts)
    requires forall key :: Entry(a, key) == Entry(b, key)
    ensures a == b
  {
    forall key
      ensures key in a <==> key in b
      ensures key in a ==> a[key] == b[key]
    {
      assert Entry(a, key) == Entry(b, key);
    }
  }

  method Trim(values: seq<int>, cutoff: int) returns (current: seq<int>)
    ensures current == Trimmed(values, cutoff)
  {
    var firstCurrent := 0;
    while firstCurrent < |values| && values[firstCurrent] < cutoff
      invariant firstCurrent <= |values| && Trimmed(values, cutoff) == Trimmed(values[firstCurrent..], cutoff)
    {
      assert values[firstCurrent..][1..] == values[firstCurrent + 1..];
      firstCurrent := firstCurrent + 1;
    }
    current := values[firstCurrent..];
  }

  // ---------------------------------------------------------------------------------------------
  // Histories
  // ---------------------------------------------------------------------------------------------

  ghost predicate Sorted(times: seq<int>) {
    forall i, j | 0 <= i < j < |times| :: times[i] <= times[j]
  }

  /** How many of the times lie in a closed interval. */
  function Count(times: seq<int>, first: int, last: int): nat {
    if times == [] then 0
    else Count(times[..|times| - 1], first, last) + if first <= times[|times| - 1] <= last then 1 else 0
  }

  /** Any `limit` times and one more span more than the window. */
  ghost predicate Spaced(times: seq<int>, limit: nat, window: nat) {
    forall i | 0 <= i && i + limit < |times| :: times[i + limit] - times[i] > window
  }

  /** The stored attempts are the last accepted ones; those forgotten lie before the cutoff. */
  ghost predicate Faithful(accepted: seq<int>, kept: seq<int>, latest: int, window: nat) {
    && Sorted(accepted) && |kept| <= |accepted| && kept == accepted[|accepted| - |kept|..]
    && (forall i | 0 <= i < |accepted| - |kept| :: accepted[i] < latest - window)
    && (forall i | 0 <= i < |accepted| :: accepted[i] <= latest)
  }

  lemma {:induction false} TrimmedIsSuffix(values: seq<int>, cutoff: int)
    ensures |Trimmed(values, cutoff)| <= |values|
    ensures Trimmed(values, cutoff) == values[|values| - |Trimmed(values, cutoff)|..]
    ensures forall i | 0 <= i < |values| - |Trimmed(values, cutoff)| :: values[i] < cutoff
    ensures Trimmed(values, cutoff) != [] ==> Trimmed(values, cutoff)[0] >= cutoff
  {
    if values != [] && values[0] < cutoff {
      TrimmedIsSuffix(values[1..], cutoff);
    }
  }

  /** Trimming at a later time forgets nothing in the window. */
  lemma TrimmingIsFaithful(accepted: seq<int>, kept: seq<int>, latest: int, window: nat, now: int)
    requires Faithful(accepted, kept, latest, window) && latest <= now
    ensures Faithful(accepted, Trimmed(kept, now - window), now, window)
  {
    var trimmed := Trimmed(kept, now - window);
    TrimmedIsSuffix(kept, now - window);
    forall i | 0 <= i < |accepted| - |trimmed|
      ensures accepted[i] < now - window
    {
      if i >= |accepted| - |kept| {
        assert accepted[i] == kept[i - (|accepted| - |kept|)];
      }
    }
  }

  lemma {:induction false} CountSplits(first: seq<int>, second: seq<int>, low: int, high: int)
    ensures Count(first + second, low, high) == Count(first, low, high) + Count(second, low, high)
  {
    if second == [] {
      assert first + second == first;
    } else {
      assert (first + second)[..|first + second| - 1] == first + second[..|second| - 1];
      CountSplits(first, second[..|second| - 1], low, high);
    }
  }

  lemma {:induction false} CountNone(times: seq<int>, low: int, high: int)
    requires forall i | 0 <= i < |times| :: times[i] < low || times[i] > high
    ensures Count(times, low, high) == 0
  {
    if times != [] {
      CountNone(times[..|times| - 1], low, high);
    }
  }

  lemma {:induction false} CountAll(times: seq<int>, low: int, high: int)
    requires forall i | 0 <= i < |times| :: low <= times[i] <= high
    ensures Count(times, low, high) == |times|
  {
    if times != [] {
      CountAll(times[..|times| - 1], low, high);
    }
  }

  /** Only a suffix counts when nothing before it lies in the interval. */
  lemma CountSuffix(times: seq<int>, split: nat, low: int, high: int)
    requires split <= |times| && forall i | 0 <= i < split :: times[i] < low
    ensures Count(times, low, high) == Count(times[split..], low, high)
  {
    assert times == times[..split] + times[split..];
    CountSplits(times[..split], times[split..], low, high);
    CountNone(times[..split], low, high);
  }

  lemma SuffixIsInside(accepted: seq<int>, split: nat, low: int, high: int)
    requires Sorted(accepted) && split <= |accepted|
    requires split < |accepted| ==> accepted[split] >= low
    requires forall i | 0 <= i < |accepted| :: accepted[i] <= high
    ensures Count(accepted[split..], low, high) == |accepted| - split
  {
    forall i | 0 <= i < |accepted[split..]|
      ensures low <= accepted[split..][i] <= high
    {
      assert accepted[split..][i] == accepted[split + i];
      assert accepted[split] <= accepted[split + i];
    }
    CountAll(accepted[split..], low, high);
  }

  lemma TrimmedCount(accepted: seq<int>, trimmed: seq<int>, now: int, window: nat)
    requires Faithful(accepted, trimmed, now, window) && (trimmed != [] ==> trimmed[0] >= now - window)
    ensures |trimmed| == Count(accepted, now - window, now)
  {
    var split := |accepted| - |trimmed|;
    assert split < |accepted| ==> accepted[split] == trimmed[0];
    CountSuffix(accepted, split, now - window, now);
    SuffixIsInside(accepted, split, now - window, now);
  }

  /** What is left after trimming are exactly the attempts in the window. */
  lemma TrimmedIsTheWindow(accepted: seq<int>, kept: seq<int>, now: int, window: nat)
    requires Faithful(accepted, kept, now, window)
    ensures |Trimmed(kept, now - window)| == Count(accepted, now - window, now)
  {
    TrimmingIsFaithful(accepted, kept, now, window, now);
    TrimmedIsSuffix(kept, now - window);
    hide Faithful, Trimmed;
    TrimmedCount(accepted, Trimmed(kept, now - window), now, window);
  }

  /** At most `limit` times of a spaced history lie in any closed interval as long as the window. */
  lemma {:induction false} AnyWindowIsBounded(times: seq<int>, limit: nat, window: nat, first: int)
    requires Sorted(times) && Spaced(times, limit, window)
    ensures Count(times, first, first + window) <= limit
  {
    if |times| <= limit {
      CountAtMost(times, first, first + window);
    } else {
      var front, last := times[..|times| - 1], times[|times| - 1];
      if first <= last <= first + window {
        var split := |times| - 1 - limit;
        assert times[split + limit] - times[split] > window;
        CountSuffix(times, split + 1, first, first + window);
        CountAtMost(times[split + 1..], first, first + window);
      } else {
        FrontIsSpaced(times, limit, window);
        AnyWindowIsBounded(front, limit, window, first);
      }
    }
  }

  lemma FrontIsSpaced(times: seq<int>, limit: nat, window: nat)
    requires times != [] && Sorted(times) && Spaced(times, limit, window)
    ensures Sorted(times[..|times| - 1]) && Spaced(times[..|times| - 1], limit, window)
  {
    var front := times[..|times| - 1];
    forall i | 0 <= i && i + limit < |front|
      ensures front[i + limit] - front[i] > window
    {
      assert times[i + limit] - times[i] > window;
    }
  }

  lemma {:induction false} CountAtMost(times: seq<int>, low: int, high: int)
    ensures Count(times, low, high) <= |times|
  {
    if times != [] {
      CountAtMost(times[..|times| - 1], low, high);
    }
  }

  /** An attempt that finds fewer than `limit` attempts in its window keeps the history spaced. */
  lemma AcceptingKeepsSpaced(accepted: seq<int>, kept: seq<int>, limit: nat, window: nat, now: int)
    requires Spaced(accepted, limit, window) && Faithful(accepted, kept, now, window) && |kept| < limit
    ensures Spaced(accepted + [now], limit, window) && Faithful(accepted + [now], kept + [now], now, window)
  {
    var all := accepted + [now];
    forall i | 0 <= i && i + limit < |all|
      ensures all[i + limit] - all[i] > window
    {
      if i + limit < |accepted| {
        assert accepted[i + limit] - accepted[i] > window;
      }
    }
  }

  ghost predicate RememberedFor(accepted: Attempts, attempts: Attempts, key: string, latest: int, limit: nat, window: nat) {
    && Faithful(ValuesOf(accepted, key), ValuesOf(attempts, key), latest, window)
    && Spaced(ValuesOf(accepted, key), limit, window)
  }

  /** For every key the attempts in the window are stored, and the history is spaced. */
  ghost predicate Remembered(accepted: Attempts, attempts: Attempts, latest: int, limit: nat, window: nat) {
    forall key :: RememberedFor(accepted, attempts, key, latest, limit, window)
  }

  lemma TimePasses(accepted: Attempts, attempts: Attempts, latest: int, limit: nat, window: nat, now: int)
    requires Remembered(accepted, attempts, latest, limit, window) && latest <= now
    ensures Remembered(accepted, attempts, now, limit, window)
  {
    forall key
      ensures RememberedFor(accepted, attempts, key, now, limit, window)
    {
      assert RememberedFor(accepted, attempts, key, latest, limit, window);
      hide Spaced, Sorted;
    }
  }

  /** Pruning forgets no attempt in the window. */
  lemma PruningKeepsTheWindow(accepted: Attempts, attempts: Attempts, now: int, limit: nat, window: nat)
    requires Remembered(accepted, attempts, now, limit, window)
    ensures Remembered(accepted, Pruned(attempts, now - window), now, limit, window)
  {
    var pruned := Pruned(attempts, now - window);
    hide Trimmed, Spaced, Faithful;
    forall key
      ensures RememberedFor(accepted, pruned, key, now, limit, window)
    {
      assert RememberedFor(accepted, attempts, key, now, limit, window);
      assert ValuesOf(pruned, key) == Trimmed(ValuesOf(attempts, key), now - window) by {
        PrunedValues(attempts, key, now - window);
      }
      TrimmingIsFaithful(ValuesOf(accepted, key), ValuesOf(attempts, key), now, window, now);
    }
  }

  lemma PrunedValues(attempts: Attempts, key: string, cutoff: int)
    ensures ValuesOf(Pruned(attempts, cutoff), key) == Trimmed(ValuesOf(attempts, key), cutoff)
  {
  }

  lemma StoringKeepsTheWindow(accepted: Attempts, attempts: Attempts, now: int, limit: nat, window: nat, key: string)
    requires Remembered(accepted, attempts, now, limit, window)
    ensures var values := Trimmed(ValuesOf(attempts, key), now - window);
      && Remembered(accepted, attempts[key := values], now, limit, window)
      && (|values| < limit ==>
            Remembered(accepted[key := ValuesOf(accepted, key) + [now]], attempts[key := values + [now]], now, limit, window))
      && |values| == Count(ValuesOf(accepted, key), now - window, now)
  {
    var all := ValuesOf(accepted, key);
    var values := Trimmed(ValuesOf(attempts, key), now - window);
    assert RememberedFor(accepted, attempts, key, now, limit, window);
    hide Remembered, Trimmed, Spaced, Faithful, Count;
    TrimmingIsFaithful(all, ValuesOf(attempts, key), now, window, now);
    TrimmedIsTheWindow(all, ValuesOf(attempts, key), now, window);
    Updated(accepted, accepted, attempts, now, limit, window, key, values);
    if |values| < limit {
      AcceptingKeepsSpaced(all, values, limit, window, now);
      Updated(accepted, accepted[key := all + [now]], attempts, now, limit, window, key, values + [now]);
    }
  }

  /** One key is updated. */
  lemma Updated(before: Attempts, accepted: Attempts, attempts: Attempts, now: int, limit: nat, window: nat, key: string,
                values: seq<int>)
    requires Remembered(before, attempts, now, limit, window)
    requires forall other | other != key :: Entry(accepted, other) == Entry(before, other)
    requires Faithful(ValuesOf(accepted, key), values, now, window) && Spaced(ValuesOf(accepted, key), limit, window)
    ensures Remembered(accepted, attempts[key := values], now, limit, window)
  {
    hide Faithful, Spaced;
    var updated := attempts[key := values];
    forall other
      ensures RememberedFor(accepted, updated, other, now, limit, window)
    {
      if other != key {
        assert RememberedFor(before, attempts, other, now, limit, window);
        assert Entry(accepted, other) == Entry(before, other);
      }
    }
  }

  lemma ResettingKeepsTheRest(accepted: Attempts, attempts: Attempts, now: int, limit: nat, window: nat, key: string)
    requires Remembered(accepted, attempts, now, limit, window)
    ensures Remembered(accepted - {key}, attempts - {key}, now, limit, window)
  {
    hide Faithful, Spaced;
    forall other
      ensures RememberedFor(accepted - {key}, attempts - {key}, other, now, limit, window)
    {
      if other != key {
        assert RememberedFor(accepted, attempts, other, now, limit, window);
      } else {
        EmptyIsFaithful(now, limit, window);
      }
    }
  }

  lemma EmptyIsFaithful(latest: int, limit: nat, window: nat)
    ensures Faithful([], [], latest, window) && Spaced([], limit, window)
  {
  }

  /** The table is full of other keys. */
  predicate Crowded(attempts: Attempts, key: string) {
    key !in attempts && |attempts| >= MAX_KEYS
  }

  lemma PrunedIsSmaller(attempts: Attempts, cutoff: int)
    ensures |Pruned(attempts, cutoff)| <= |attempts|
  {
    SubsetIsSmaller(Pruned(attempts, cutoff).Keys, attempts.Keys);
  }

  lemma {:induction false} SubsetIsSmaller(a: set<string>, b: set<string>)
    requires a <= b
    ensures |a| <= |b|
  {
    assert b == a + (b - a);
    assert |a + (b - a)| == |a| + |b - a|;
  }

  // ---------------------------------------------------------------------------------------------
  // The limiter
  // ---------------------------------------------------------------------------------------------

  /** `accepted` holds what was accepted for each key since its last reset, `latest` the latest time passed in, and
      `timely` says that no time was earlier than one before it. */
  class Limiter {
    const limit: nat
    const window: nat
    var attempts: Attempts
    var lastPrune: Option<int>
    ghost var accepted: Attempts
    ghost var latest: int
    ghost var timely: bool

    ghost predicate Valid()
      reads this
    {
      |attempts| <= MAX_KEYS && (timely ==> Remembered(accepted, attempts, latest, limit, window))
    }

    constructor (limit: nat, window: nat, ghost now: int)
      ensures Valid() && timely && latest == now && this.limit == limit && this.window == window
      ensures attempts == map[] && accepted == map[]
    {
      this.limit, this.window, attempts, lastPrune := limit, window, map[], None;
      accepted, latest, timely := map[], now, true;
    }

    /** Trims every key and forgets those without an attempt in the window. */
    method Prune(cutoff: int)
      modifies this`attempts
      ensures attempts == Pruned(old(attempts), cutoff)
    {
      ghost var start := attempts;
      var keys := attempts.Keys;
      while |keys| > 0
        invariant keys <= start.Keys
        invariant forall key :: Entry(attempts, key) == Entry(if key in keys then start else Pruned(start, cutoff), key)
        decreases |keys|
      {
        assert exists key :: key in keys by {
          assert (forall key :: key !in keys) ==> keys == {};
        }
        var key: string :| key in keys;
        assert Entry(attempts, key) == Entry(start, key);
        var current := Trim(attempts[key], cutoff);
        if |current| == 0 {
          attempts := attempts - {key};
        } else {
          attempts := attempts[key := current];
        }
        keys := keys - {key};
      }
      SameEntries(attempts, Pruned(start, cutoff));
    }

    /** Prunes when it is due or the table is full, and says whether the key has or finds a place. */
    method MakeRoom(key: string, now: int) returns (room: bool)
      requires |attempts| <= MAX_KEYS
      modifies this`attempts, this`lastPrune
      ensures attempts == old(attempts) || attempts == Pruned(old(attempts), now - window)
      ensures room <==> !Crowded(Pruned(old(attempts), now - window), key)
      ensures room ==> key in attempts || |attempts| < MAX_KEYS
      ensures |attempts| <= MAX_KEYS
    {
      hide Trimmed, Pruned;
      PrunedIsSmaller(attempts, now - window);
      var cutoff := now - window;
      if lastPrune.None? || now - lastPrune.value >= window || |attempts| >= MAX_KEYS {
        Prune(cutoff);
        lastPrune := Some(now);
      }
      return key in attempts || |attempts| < MAX_KEYS;
    }

    /** Whether one more attempt is allowed now. It is refused when the window holds `limit` accepted attempts, or
        when the key is new and as many other keys as fit have an attempt in the window. */
    method Allow(key: string, now: int) returns (allowed: bool)
      requires Valid()
      modifies this
      ensures Valid() && (timely <==> old(timely) && old(latest) <= now)
      ensures timely ==>
        (allowed <==> Count(old(ValuesOf(accepted, key)), now - window, now) < limit
                      && !Crowded(Pruned(old(attempts), now - window), key))
      ensures accepted == if allowed then old(accepted)[key := old(ValuesOf(accepted, key)) + [now]] else old(accepted)
    {
      hide Remembered, Count, Trimmed, Pruned, ValuesOf, Crowded;
      timely := timely && latest <= now;
      if timely {
        TimePasses(accepted, attempts, latest, limit, window, now);
        PruningKeepsTheWindow(accepted, attempts, now, limit, window);
      }
      latest := now;
      var room := MakeRoom(key, now);
      if !room {
        return false;
      }
      if timely {
        StoringKeepsTheWindow(accepted, attempts, now, limit, window, key);
      }
      var values := Trim(ValuesOf(attempts, key), now - window);
      if |values| >= limit {
        attempts := attempts[key := values];
        return false;
      }
      attempts := attempts[key := values + [now]];
      accepted := accepted[key := ValuesOf(accepted, key) + [now]];
      return true;
    }

    method Reset(key: string)
      requires Valid()
      modifies this`attempts, this`accepted
      ensures Valid() && attempts == old(attempts) - {key} && accepted == old(accepted) - {key}
    {
      hide Remembered;
      SubsetIsSmaller((attempts - {key}).Keys, attempts.Keys);
      if timely {
        ResettingKeepsTheRest(accepted, attempts, latest, limit, window, key);
      }
      attempts := attempts - {key};
      accepted := accepted - {key};
    }

    /** While time does not go back, no closed interval as long as the window holds more than `limit` attempts that
        were accepted for a key since its last reset. */
    lemma WindowIsBounded(key: string, first: int)
      requires Valid() && timely
      ensures Count(ValuesOf(accepted, key), first, first + window) <= limit
    {
      assert RememberedFor(accepted, attempts, key, latest, limit, window);
      AnyWindowIsBounded(ValuesOf(accepted, key), limit, window, first);
    }
  }
}
