/** What a pool that is only recorded into shows: the freshest observations, up to its capacity. */
module ProbeFreshness {
  import opened Core
  import opened ProbePoolState

  /** `top` is the greatest `c` elements of `all`, or all of them when there are fewer. */
  ghost predicate IsTop(c: nat, all: multiset<nat>, top: multiset<nat>) {
    && top <= all
    && |top| == (if |all| < c then |all| else c)
    && forall x, y :: x in top && y in all - top ==> y <= x
  }

  lemma ExtraMeansContains(
      c: nat, all: multiset<nat>, a: multiset<nat>, b: multiset<nat>, x: nat, y: nat)
    requires IsTop(c, all, a) && IsTop(c, all, b) && a[x] > b[x]
    ensures b[y] <= a[y]
  {
    assert all[x] >= a[x] && all[y] >= b[y];
    if y in all - a && y in b {
      assert x in all - b && x in a;
      assert x == y;
    }
  }

  lemma SameSizePart(a: multiset<nat>, b: multiset<nat>)
    requires b <= a && |a| == |b|
    ensures a == b
  {
    assert a == b + (a - b);
  }

  lemma ContainedTop(c: nat, all: multiset<nat>, a: multiset<nat>, b: multiset<nat>)
    requires IsTop(c, all, a) && IsTop(c, all, b)
    ensures a <= b || b <= a
  {
    if x :| x in a && a[x] > b[x] {
      forall y
        ensures b[y] <= a[y]
      {
        ExtraMeansContains(c, all, a, b, x, y);
      }
    }
  }

  /** The multiset `IsTop` describes is unique. */
  lemma TopIsUnique(c: nat, all: multiset<nat>, a: multiset<nat>, b: multiset<nat>)
    requires IsTop(c, all, a) && IsTop(c, all, b)
    ensures a == b
  {
    ContainedTop(c, all, a, b);
    if a <= b {
      SameSizePart(b, a);
    } else {
      SameSizePart(a, b);
    }
  }

  lemma TopAdds(c: nat, all: multiset<nat>, top: multiset<nat>, t: nat)
    requires IsTop(c, all, top) && |top| < c
    ensures IsTop(c, all + multiset{t}, top + multiset{t})
  {
    assert all == top + (all - top);
    assert all == top;
  }

  lemma TopEvicts(c: nat, all: multiset<nat>, top: multiset<nat>, oldest: nat, t: nat)
    requires IsTop(c, all, top) && |top| == c && oldest in top && oldest <= t
    requires forall x :: x in top ==> oldest <= x
    ensures IsTop(c, all + multiset{t}, top - multiset{oldest} + multiset{t})
  {
    var all', top' := all + multiset{t}, top - multiset{oldest} + multiset{t};
    assert all == top + (all - top);
    assert all' - top' == (all - top) + multiset{oldest};
  }

  lemma TopIgnores(c: nat, all: multiset<nat>, top: multiset<nat>, t: nat)
    requires IsTop(c, all, top) && |top| == c && forall x :: x in top ==> t <= x
    ensures IsTop(c, all + multiset{t}, top)
  {
    assert all == top + (all - top);
    assert (all + multiset{t}) - top == (all - top) + multiset{t};
  }

  /** The instants of the observations usable at `now`. */
  function FreshTimes<Id>(es: seq<ProbeEntry<Id>>, now: nat, maxAge: nat): multiset<nat> {
    if es == [] then multiset{} else
      var last := |es| - 1;
      FreshTimes(es[..last], now, maxAge) +
      if Unexpired(es[last], now, maxAge) then multiset{es[last].recordedAt} else multiset{}
  }

  function Times<Id>(es: seq<ProbeEntry<Id>>): multiset<nat> {
    if es == [] then multiset{} else Times(es[..|es| - 1]) + multiset{es[|es| - 1].recordedAt}
  }

  /** What a read at `now` shows are exactly the fresh instants. */
  lemma {:induction false} ReadShowsFresh<Id>(es: seq<ProbeEntry<Id>>, now: nat, maxAge: nat)
    ensures Times(Live(es, now, maxAge)) == FreshTimes(es, now, maxAge)
  {
    if es != [] {
      var last := |es| - 1;
      ReadShowsFresh(es[..last], now, maxAge);
      var before := Live(es[..last], now, maxAge);
      assert (before + [es[last]])[..|before|] == before;
    }
  }

  lemma FreshAppend<Id>(es: seq<ProbeEntry<Id>>, e: ProbeEntry<Id>, now: nat, maxAge: nat)
    ensures FreshTimes(es + [e], now, maxAge) ==
      FreshTimes(es, now, maxAge) + if Unexpired(e, now, maxAge) then multiset{e.recordedAt} else multiset{}
  {
    assert (es + [e])[..|es|] == es;
  }

  lemma {:induction false} FreshConcat<Id>(a: seq<ProbeEntry<Id>>, b: seq<ProbeEntry<Id>>, now: nat, maxAge: nat)
    ensures FreshTimes(a + b, now, maxAge) == FreshTimes(a, now, maxAge) + FreshTimes(b, now, maxAge)
  {
    if b == [] {
      assert a + b == a;
    } else {
      var last := |b| - 1;
      assert a + b == (a + b[..last]) + [b[last]];
      FreshConcat(a, b[..last], now, maxAge);
      FreshAppend(a + b[..last], b[last], now, maxAge);
    }
  }

  lemma FreshWithout<Id>(es: seq<ProbeEntry<Id>>, i: nat, now: nat, maxAge: nat)
    requires i < |es|
    ensures FreshTimes(es, now, maxAge) ==
      FreshTimes(Without(es, i), now, maxAge)
        + if Unexpired(es[i], now, maxAge) then multiset{es[i].recordedAt} else multiset{}
  {
    hide FreshTimes;
    assert es == (es[..i] + [es[i]]) + es[i + 1..];
    FreshConcat(es[..i] + [es[i]], es[i + 1..], now, maxAge);
    FreshAppend(es[..i], es[i], now, maxAge);
    FreshConcat(es[..i], es[i + 1..], now, maxAge);
  }

  /** Expiring early, by a clock no later than the read, changes nothing the read shows. */
  lemma {:induction false} EarlyExpiryIsInvisible<Id>(es: seq<ProbeEntry<Id>>, earlier: nat, now: nat, maxAge: nat)
    requires earlier <= now
    ensures FreshTimes(Live(es, earlier, maxAge), now, maxAge) == FreshTimes(es, now, maxAge)
  {
    if es != [] {
      var last := |es| - 1;
      EarlyExpiryIsInvisible(es[..last], earlier, now, maxAge);
      FreshAppend(Live(es[..last], earlier, maxAge), es[last], now, maxAge);
    }
  }

  lemma {:induction false} FreshBounds<Id>(es: seq<ProbeEntry<Id>>, now: nat, maxAge: nat)
    ensures |FreshTimes(es, now, maxAge)| <= |es|
    ensures forall x :: x in FreshTimes(es, now, maxAge) ==>
      exists k :: 0 <= k < |es| && es[k].recordedAt == x && Unexpired(es[k], now, maxAge)
    ensures (forall k :: 0 <= k < |es| ==> Unexpired(es[k], now, maxAge)) ==> |FreshTimes(es, now, maxAge)| == |es|
  {
    if es != [] {
      var last := |es| - 1;
      FreshBounds(es[..last], now, maxAge);
      forall x | x in FreshTimes(es[..last], now, maxAge)
        ensures exists k :: 0 <= k < |es| && es[k].recordedAt == x && Unexpired(es[k], now, maxAge)
      {
        var k :| 0 <= k < last && es[..last][k].recordedAt == x && Unexpired(es[..last][k], now, maxAge);
        assert es[k] == es[..last][k];
      }
    }
  }

  /** One recording keeps the pool showing the freshest `capacity` of everything recorded. */
  lemma RecordKeepsFreshest<Id>(
      before: seq<ProbeEntry<Id>>, after: seq<ProbeEntry<Id>>, e: ProbeEntry<Id>, seen: multiset<nat>,
      capacity: nat, maxAge: nat, now: nat)
    requires capacity > 0 && e.recordedAt <= now && |before| <= capacity
    requires Records(before, after, e, capacity, maxAge)
    requires IsTop(capacity, seen, FreshTimes(before, now, maxAge))
    ensures |after| <= capacity
    ensures IsTop(capacity, seen + (if Unexpired(e, now, maxAge) then multiset{e.recordedAt} else multiset{}),
                  FreshTimes(after, now, maxAge))
  {
    hide IsTop, FreshTimes, Live;
    var live := Live(before, e.recordedAt, maxAge);
    var top := FreshTimes(before, now, maxAge);
    EarlyExpiryIsInvisible(before, e.recordedAt, now, maxAge);
    FreshBounds(live, now, maxAge);
    if |live| < capacity {
      FreshAppend(live, e, now, maxAge);
      if Unexpired(e, now, maxAge) {
        TopAdds(capacity, seen, top, e.recordedAt);
      } else {
        assert top + multiset{} == top && seen + multiset{} == seen;
      }
    } else {
      var i: nat :| IsOldest(live, i)
        && after == if live[i].recordedAt > e.recordedAt then live else Without(live, i) + [e];
      FullPoolKeepsFreshest(live, i, after, e, seen, capacity, maxAge, now);
    }
  }

  lemma FullPoolKeepsFreshest<Id>(
      live: seq<ProbeEntry<Id>>, i: nat, after: seq<ProbeEntry<Id>>, e: ProbeEntry<Id>, seen: multiset<nat>,
      capacity: nat, maxAge: nat, now: nat)
    requires e.recordedAt <= now && |live| == capacity && IsOldest(live, i)
    requires after == if live[i].recordedAt > e.recordedAt then live else Without(live, i) + [e]
    requires IsTop(capacity, seen, FreshTimes(live, now, maxAge))
    ensures IsTop(capacity, seen + (if Unexpired(e, now, maxAge) then multiset{e.recordedAt} else multiset{}),
                  FreshTimes(after, now, maxAge))
  {
    hide IsTop, FreshTimes;
    var top, t, oldest := FreshTimes(live, now, maxAge), e.recordedAt, live[i].recordedAt;
    FreshBounds(live, now, maxAge);
    assert seen + multiset{} == seen;
    if oldest > t {
      if Unexpired(e, now, maxAge) {
        TopIgnores(capacity, seen, top, t);
      }
    } else {
      var rest := Without(live, i);
      FreshWithout(live, i, now, maxAge);
      FreshAppend(rest, e, now, maxAge);
      FreshBounds(rest, now, maxAge);
      if Unexpired(e, now, maxAge) {
        if Unexpired(live[i], now, maxAge) {
          assert top - multiset{oldest} == FreshTimes(rest, now, maxAge);
          TopEvicts(capacity, seen, top, oldest, t);
        } else {
          assert top == FreshTimes(rest, now, maxAge);
          TopAdds(capacity, seen, top, t);
        }
      } else {
        assert top == FreshTimes(rest, now, maxAge) == FreshTimes(rest, now, maxAge) + multiset{};
      }
    }
  }

  /** A run that only records, from an empty pool, by clocks that may move either way. */
  ghost predicate IsRecordRun<Id>(
      pools: seq<seq<ProbeEntry<Id>>>, events: seq<ProbeEntry<Id>>, capacity: nat, maxAge: nat) {
    && |pools| == |events| + 1 && pools[0] == []
    && forall k :: 0 <= k < |events| ==> Records(pools[k], pools[k + 1], events[k], capacity, maxAge)
  }

  /** A read no earlier than any instant recorded shows exactly the freshest unexpired instants, up to capacity. */
  lemma {:induction false} FreshestSurvive<Id>(
      pools: seq<seq<ProbeEntry<Id>>>, events: seq<ProbeEntry<Id>>, capacity: nat, maxAge: nat, now: nat)
    requires capacity > 0 && IsRecordRun(pools, events, capacity, maxAge)
    requires forall k :: 0 <= k < |events| ==> events[k].recordedAt <= now
    ensures |pools[|events|]| <= capacity
    ensures IsTop(capacity, FreshTimes(events, now, maxAge), Times(Live(pools[|events|], now, maxAge)))
    decreases |events|
  {
    ReadShowsFresh(pools[|events|], now, maxAge);
    hide Records, Live, Times;
    if events != [] {
      var last := |events| - 1;
      FreshestSurvive(pools[..|events|], events[..last], capacity, maxAge, now);
      ReadShowsFresh(pools[last], now, maxAge);
      assert Records(pools[last], pools[last + 1], events[last], capacity, maxAge);
      RecordKeepsFreshest(pools[last], pools[last + 1], events[last], FreshTimes(events[..last], now, maxAge),
        capacity, maxAge, now);
    }
  }
}
