/** Weighted choice by one ticket: a scan that subtracts each weight it passes. */
module Tickets {
  import opened Core
  import opened SeqSums

  /** Ticket `t` falls in the interval of width `ws[i]` that entry `i` owns. */
  ghost predicate Owns(ws: seq<nat>, i: nat, t: nat) {
    i < |ws| && Total(ws[..i]) <= t < Total(ws[..i + 1])
  }

  lemma TotalStep(ws: seq<nat>, i: nat)
    requires i < |ws|
    ensures Total(ws[..i + 1]) == Total(ws[..i]) + ws[i]
  {
    SumStep(ws, i, ITSELF);
  }

  lemma TotalOfNone(ws: seq<nat>)
    ensures Total(ws[..0]) == 0
  {
  }

  lemma TotalMonotone(ws: seq<nat>, i: nat, j: nat)
    requires i <= j <= |ws|
    ensures Total(ws[..i]) <= Total(ws[..j])
  {
    assert ws[..j][..i] == ws[..i];
    SumMonotone(ws[..j], i, ITSELF);
  }

  lemma TotalOfWhole(ws: seq<nat>, i: nat)
    requires i <= |ws|
    ensures Total(ws[..i]) <= Total(ws) && ws[..|ws|] == ws
    ensures i < |ws| ==> Total(ws[..i + 1]) <= Total(ws)
  {
    assert ws[..|ws|] == ws;
    TotalMonotone(ws, i, |ws|);
    if i < |ws| {
      TotalMonotone(ws, i + 1, |ws|);
    }
  }

  lemma OneOwner(ws: seq<nat>, i: nat, j: nat, t: nat)
    requires Owns(ws, i, t) && Owns(ws, j, t)
    ensures i == j
  {
    if i < j {
      TotalMonotone(ws, i + 1, j);
    } else if j < i {
      TotalMonotone(ws, j + 1, i);
    }
  }

  /** Every ticket below the total stops the scan; no other ticket does. */
  method Scan(ws: seq<nat>, ticket: nat) returns (r: Option<nat>)
    ensures r.Some? <==> ticket < Total(ws)
    ensures r.Some? ==> Owns(ws, r.value, ticket)
  {
    hide Total;
    var left := ticket;
    TotalOfNone(ws);
    for i := 0 to |ws|
      invariant left == ticket - Total(ws[..i])
    {
      TotalStep(ws, i);
      TotalOfWhole(ws, i);
      if left < ws[i] {
        return Some(i);
      }
      left := left - ws[i];
    }
    TotalOfWhole(ws, |ws|);
    return None;
  }

  /** The entry a ticket stops at. */
  function Owner(ws: seq<nat>, t: nat): (i: nat)
    requires t < Total(ws)
    ensures Owns(ws, i, t)
  {
    var last := |ws| - 1;
    var i := if Total(ws[..last]) <= t then last else Owner(ws[..last], t);
    assert ws[..last + 1] == ws && (i < last ==> ws[..last][..i] == ws[..i] && ws[..last][..i + 1] == ws[..i + 1]);
    i
  }

  predicate Within(lo: nat, t: nat, hi: nat) {
    lo <= t < hi
  }

  lemma {:induction false} RangeCount(lo: nat, hi: nat)
    requires lo <= hi
    ensures |set t: nat | t < hi && Within(lo, t, hi)| == hi - lo
    decreases hi
  {
    if lo < hi {
      var m := hi - 1;
      RangeCount(lo, m);
      assert (set t: nat | t < hi && Within(lo, t, hi)) == (set t: nat | t < m && Within(lo, t, m)) + {m};
    } else {
      assert (set t: nat | t < hi && Within(lo, t, hi)) == {};
    }
  }

  /** The tickets that stop the scan at `i`. */
  ghost function Owned(ws: seq<nat>, i: nat): set<nat> {
    set t: nat | t < Total(ws) && Owner(ws, t) == i
  }

  /** Under a uniform ticket an entry is chosen in exact proportion to its weight. */
  lemma TicketsOwned(ws: seq<nat>, i: nat)
    requires i < |ws|
    ensures |Owned(ws, i)| == ws[i]
  {
    hide Total, Owner;
    var lo, hi := Total(ws[..i]), Total(ws[..i + 1]);
    TotalStep(ws, i);
    TotalOfWhole(ws, i);
    forall t: nat | t < Total(ws)
      ensures Owner(ws, t) == i <==> Within(lo, t, hi)
    {
      if lo <= t < hi {
        OneOwner(ws, i, Owner(ws, t), t);
      }
    }
    assert Owned(ws, i) == (set t: nat | t < hi && Within(lo, t, hi));
    RangeCount(lo, hi);
  }

  /** An entry of positive weight owns the ticket at the start of its interval. */
  lemma FirstTicket(ws: seq<nat>, i: nat)
    requires i < |ws| && ws[i] > 0
    ensures Total(ws[..i]) < Total(ws) && Owner(ws, Total(ws[..i])) == i
  {
    hide Total, Owner;
    var t := Total(ws[..i]);
    TotalStep(ws, i);
    TotalOfWhole(ws, i);
    OneOwner(ws, i, Owner(ws, t), t);
  }

  /** An entry of weight zero owns nothing. */
  lemma OwnerHasWeight(ws: seq<nat>, t: nat)
    requires t < Total(ws)
    ensures ws[Owner(ws, t)] > 0
  {
    TotalStep(ws, Owner(ws, t));
  }

  lemma TotalZeroIff(ws: seq<nat>)
    ensures Total(ws) == 0 <==> forall i :: 0 <= i < |ws| ==> ws[i] == 0
  {
    SumZeroIff(ws, ITSELF);
  }

  /** Weights listed beside their holders add up to the sum over the holders. */
  lemma TotalIsSum<T>(ws: seq<nat>, s: seq<T>, f: T -> nat)
    requires |ws| == |s| && forall k :: 0 <= k < |ws| ==> ws[k] == f(s[k])
    ensures Total(ws) == SumBy(s, f)
  {
    SameSums(ws, s, ITSELF, f);
  }
}
