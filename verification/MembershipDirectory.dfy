/** The single-writer directory: a vector of entries and a position index kept mutually inverse. */
module MembershipDirectory {
  import opened Core
  import opened Registry

  datatype Entry<+Key, +Backend> = Entry(key: Key, backend: Backend, membership: Membership)

  function Keys<Key, Backend>(entries: seq<Entry<Key, Backend>>): (r: seq<Key>)
    ensures |r| == |entries| && forall i :: 0 <= i < |r| ==> r[i] == entries[i].key
  {
    seq(|entries|, i requires 0 <= i < |entries| => entries[i].key)
  }

  ghost predicate Inverse<Key, Backend>(entries: seq<Entry<Key, Backend>>, positions: map<Key, nat>) {
    && (forall k :: k in positions ==> positions[k] < |entries| && entries[positions[k]].key == k)
    && (forall i :: 0 <= i < |entries| ==> entries[i].key in positions && positions[entries[i].key] == i)
  }

  ghost function MembersOf<Key, Backend>(
      entries: seq<Entry<Key, Backend>>, positions: map<Key, nat>): map<Key, Member<Backend>>
    requires forall k :: k in positions ==> positions[k] < |entries|
  {
    map k | k in positions :: Member(entries[positions[k]].backend, entries[positions[k]].membership)
  }

  /** The roster the two structures stand for. */
  ghost function RosterOf<Key, Backend>(
      entries: seq<Entry<Key, Backend>>, positions: map<Key, nat>): Roster<Key, Backend>
    requires Inverse(entries, positions)
  {
    Roster(Keys(entries), MembersOf(entries, positions))
  }

  lemma RosterIsWellFormed<Key, Backend>(entries: seq<Entry<Key, Backend>>, positions: map<Key, nat>)
    requires Inverse(entries, positions)
    ensures WellFormed(RosterOf(entries, positions))
  {
    var r := RosterOf(entries, positions);
    forall k | k in r.members
      ensures k in r.order
    {
      assert r.order[positions[k]] == k;
    }
  }

  lemma IndexIsPosition<Key, Backend>(
      entries: seq<Entry<Key, Backend>>, positions: map<Key, nat>, key: Key)
    requires Inverse(entries, positions) && key in positions
    ensures key in Keys(entries) && IndexOf(Keys(entries), key) == positions[key]
  {
    assert Keys(entries)[positions[key]] == key;
    var i := IndexOf(Keys(entries), key);
    assert entries[i].key == key;
  }

  lemma RosterHolds<Key, Backend>(
      entries: seq<Entry<Key, Backend>>, positions: map<Key, nat>, key: Key)
    requires Inverse(entries, positions)
    ensures var r := RosterOf(entries, positions);
      && r.order == Keys(entries) && (key in r.members <==> key in positions)
      && (key in positions ==>
            && positions[key] < |entries| && entries[positions[key]].key == key
            && r.members[key] == Member(entries[positions[key]].backend, entries[positions[key]].membership))
  {
  }

  lemma PushRefines<Key, Backend>(
      entries: seq<Entry<Key, Backend>>, positions: map<Key, nat>, key: Key, backend: Backend)
    requires Inverse(entries, positions) && key !in positions
    ensures var e, p := entries + [Entry(key, backend, Active)], positions[key := |entries|];
      Inverse(e, p) && RosterOf(e, p) == Upserted(RosterOf(entries, positions), key, backend).0
  {
    var e, p := entries + [Entry(key, backend, Active)], positions[key := |entries|];
    assert Keys(e) == Keys(entries) + [key];
    assert RosterOf(e, p).members == Upserted(RosterOf(entries, positions), key, backend).0.members;
  }

  lemma ReplaceRefines<Key, Backend>(
      entries: seq<Entry<Key, Backend>>, positions: map<Key, nat>, key: Key, backend: Backend, membership: Membership)
    requires Inverse(entries, positions) && key in positions
    ensures var e := entries[positions[key] := Entry(key, backend, membership)];
      && Inverse(e, positions) && Keys(e) == Keys(entries)
      && RosterOf(e, positions) ==
           Roster(RosterOf(entries, positions).order,
                  RosterOf(entries, positions).members[key := Member(backend, membership)])
  {
    var e := entries[positions[key] := Entry(key, backend, membership)];
    assert Keys(e) == Keys(entries);
    assert MembersOf(e, positions) == MembersOf(entries, positions)[key := Member(backend, membership)];
  }

  /** Positions part-way through re-indexing: entries from `index` up to `done` are settled, the rest one too high. */
  ghost predicate Reindexing<Key>(positions: map<Key, nat>, before: map<Key, nat>, removed: Key, index: nat, done: nat)
  {
    && positions.Keys == before.Keys - {removed}
    && forall k :: k in positions ==>
         positions[k] == if index < before[k] <= done then before[k] - 1 else before[k]
  }

  lemma ReindexStarts<Key, Backend>(
      entries: seq<Entry<Key, Backend>>, before: map<Key, nat>, removed: Key)
    requires removed in before
    ensures Reindexing(before - {removed}, before, removed, before[removed], before[removed])
  {
  }

  lemma ReindexStep<Key, Backend>(
      entries: seq<Entry<Key, Backend>>, before: map<Key, nat>, positions: map<Key, nat>, removed: Key, index: nat,
      done: nat)
    requires Inverse(entries, before) && removed in before && index == before[removed] <= done && done + 1 < |entries|
    requires Reindexing(positions, before, removed, index, done)
    ensures Reindexing(positions[entries[done + 1].key := done], before, removed, index, done + 1)
  {
    var key := entries[done + 1].key;
    assert before[key] == done + 1;
    forall k | k in positions && k != key
      ensures before[k] != done + 1
    {
      assert entries[before[k]].key == k;
    }
  }

  lemma ReindexRestoresInverse<Key, Backend>(
      entries: seq<Entry<Key, Backend>>, before: map<Key, nat>, positions: map<Key, nat>, removed: Key,
      after: seq<Entry<Key, Backend>>)
    requires Inverse(entries, before) && removed in before
    requires Reindexing(positions, before, removed, before[removed], |entries| - 1)
    requires after == entries[..before[removed]] + entries[before[removed] + 1..]
    ensures Inverse(after, positions)
    ensures forall k :: k in positions ==> positions[k] < |after| && after[positions[k]] == entries[before[k]]
  {
    var index := before[removed];
    forall i | 0 <= i < |after|
      ensures after[i].key in positions && positions[after[i].key] == i
    {
      assert after[i] == entries[if i < index then i else i + 1];
    }
    forall k | k in positions
      ensures positions[k] < |after| && after[positions[k]] == entries[before[k]]
    {
      assert entries[before[k]].key == k && before[k] != index;
    }
  }

  lemma KeysWithout<Key, Backend>(entries: seq<Entry<Key, Backend>>, removed: Key, index: nat)
    requires removed in Keys(entries) && IndexOf(Keys(entries), removed) == index < |entries|
    ensures Keys(entries[..index] + entries[index + 1..]) == Leave(Keys(entries), removed)
  {
  }

  lemma MembersWithout<Key, Backend>(
      entries: seq<Entry<Key, Backend>>, before: map<Key, nat>,
      after: seq<Entry<Key, Backend>>, positions: map<Key, nat>, removed: Key)
    requires positions.Keys == before.Keys - {removed}
    requires forall k :: k in before ==> before[k] < |entries|
    requires forall k :: k in positions ==> positions[k] < |after| && after[positions[k]] == entries[before[k]]
    ensures MembersOf(after, positions) == MembersOf(entries, before) - {removed}
  {
  }

  lemma RemovalRefines<Key, Backend>(
      entries: seq<Entry<Key, Backend>>, before: map<Key, nat>, positions: map<Key, nat>, removed: Key)
    requires Inverse(entries, before) && removed in before
    requires Reindexing(positions, before, removed, before[removed], |entries| - 1)
    ensures var after := entries[..before[removed]] + entries[before[removed] + 1..];
      && Inverse(after, positions)
      && RosterOf(after, positions) ==
           Roster(Leave(Keys(entries), removed), RosterOf(entries, before).members - {removed})
  {
    var after := entries[..before[removed]] + entries[before[removed] + 1..];
    ReindexRestoresInverse(entries, before, positions, removed, after);
    IndexIsPosition(entries, before, removed);
    assert positions.Keys == before.Keys - {removed};
    hide Inverse, Reindexing, MembersOf, Leave, IndexOf;
    KeysWithout(entries, removed, before[removed]);
    MembersWithout(entries, before, after, positions, removed);
  }

  class Directory<Key(==,!new), Backend(!new)> {
    var revision: u64
    var entries: seq<Entry<Key, Backend>>
    var positions: map<Key, nat>

    ghost predicate Valid()
      reads this
    {
      Inverse(entries, positions)
    }

    ghost function View(): (c: Clocked<Key, Backend>)
      requires Valid()
      reads this
      ensures WellFormed(c.roster)
    {
      RosterIsWellFormed(entries, positions);
      Clocked(RosterOf(entries, positions), revision)
    }

    constructor (revision: u64)
      ensures Valid() && View() == Clocked(Roster([], map[]), revision)
    {
      this.revision, entries, positions := revision, [], map[];
      new;
      assert Keys(entries) == [];
      assert RosterOf(entries, positions).members == map[];
    }

    constructor Clone(other: Directory<Key, Backend>)
      requires other.Valid()
      ensures Valid() && View() == other.View()
    {
      revision, entries, positions := other.revision, other.entries, other.positions;
    }

    method Upsert(key: Key, backend: Backend) returns (r: Result<Applied, RevisionExhausted>)
      requires Valid()
      modifies this
      ensures Valid() && (View(), r) == Commit(old(View()), Upserted(old(View()).roster, key, backend))
    {
      hide Inverse, RosterOf, WellFormed, Keys;
      RosterHolds(entries, positions, key);
      if revision + 1 == U64_LIMIT {
        return Err(RevisionExhausted);
      }
      var effect;
      if key in positions {
        var index := positions[key];
        effect := if entries[index].membership == Draining then Revived else Updated;
        ReplaceRefines(entries, positions, key, backend, Active);
        entries := entries[index := Entry(key, backend, Active)];
      } else {
        PushRefines(entries, positions, key, backend);
        positions := positions[key := |entries|];
        entries := entries + [Entry(key, backend, Active)];
        effect := Inserted;
      }
      revision := revision + 1;
      return Ok(Applied(effect, revision));
    }

    method BeginDrain(key: Key) returns (r: Result<Applied, RevisionExhausted>)
      requires Valid()
      modifies this
      ensures Valid() && (View(), r) == Commit(old(View()), DrainBegun(old(View()).roster, key))
    {
      hide Inverse, RosterOf, WellFormed, Keys;
      RosterHolds(entries, positions, key);
      if key !in positions {
        return Ok(Applied(NotFound, revision));
      }
      var index := positions[key];
      if entries[index].membership == Draining {
        return Ok(Applied(AlreadyDraining, revision));
      }
      if revision + 1 == U64_LIMIT {
        return Err(RevisionExhausted);
      }
      ReplaceRefines(entries, positions, key, entries[index].backend, Draining);
      entries := entries[index := entries[index].(membership := Draining)];
      revision := revision + 1;
      return Ok(Applied(DrainStarted, revision));
    }

    method FinishDrain(key: Key) returns (r: Result<Applied, RevisionExhausted>)
      requires Valid()
      modifies this
      ensures Valid() && (View(), r) == Commit(old(View()), DrainDone(old(View()).roster, key))
    {
      hide Inverse, RosterOf, Leave, Keys, WellFormed;
      RosterHolds(entries, positions, key);
      if key !in positions {
        return Ok(Applied(NotFound, revision));
      }
      var index := positions[key];
      if entries[index].membership != Draining {
        return Ok(Applied(NotDraining, revision));
      }
      if revision + 1 == U64_LIMIT {
        return Err(RevisionExhausted);
      }
      RemoveAt(index, key);
      revision := revision + 1;
      return Ok(Applied(DrainFinished, revision));
    }

    /** Take the entry out and move every later position down by one. */
    method RemoveAt(index: nat, key: Key)
      requires Valid() && key in positions && positions[key] == index < |entries|
      modifies this`entries, this`positions
      ensures Valid()
      ensures RosterOf(entries, positions) ==
        old(Roster(Leave(Keys(entries), key), RosterOf(entries, positions).members - {key}))
    {
      hide Inverse, Reindexing, RosterOf, Leave, Keys;
      ghost var before, places := entries, positions;
      ReindexStarts(before, places, key);
      positions := positions - {key};
      entries := entries[..index] + entries[index + 1..];
      for position := index to |entries|
        invariant entries == before[..index] + before[index + 1..]
        invariant Reindexing(positions, places, key, index, position)
      {
        assert entries[position] == before[position + 1];
        ReindexStep(before, places, positions, key, index, position);
        positions := positions[entries[position].key := position];
      }
      RemovalRefines(before, places, positions, key);
    }

    method Apply(change: Change<Key, Backend>) returns (r: Result<Applied, RevisionExhausted>)
      requires Valid()
      modifies this
      ensures Valid() && (View(), r) == Commit(old(View()), ChangedBy(old(View()).roster, change))
    {
      match change {
        case Upsert(key, backend) => r := Upsert(key, backend);
        case Remove(key) => r := BeginDrain(key);
      }
    }

    /** Stage every change on a copy; commit it whole or leave this directory alone. */
    method ApplyBatch(changes: seq<Change<Key, Backend>>) returns (r: Result<seq<Applied>, RevisionExhausted>)
      requires Valid()
      modifies this
      ensures Valid() && (View(), r) == Batch(old(View()), changes)
    {
      hide ChangedBy, Commit, Inverse, WellFormed;
      ghost var start := View();
      var staged := new Directory.Clone(this);
      var outcomes: seq<Applied> := [];
      for i := 0 to |changes|
        invariant Valid() && View() == start && staged.Valid() && fresh(staged)
        invariant Sequence(start, changes[..i]) == (staged.View(), Ok(outcomes))
      {
        assert changes[..i + 1][..i] == changes[..i];
        var applied := staged.Apply(changes[i]);
        if applied.Err? {
          RefusedStaysRefused(start, changes, i + 1);
          assert applied.error == RevisionExhausted == Sequence(start, changes).1.error;
          return Err(applied.error);
        }
        outcomes := outcomes + [applied.value];
      }
      assert changes[..|changes|] == changes;
      revision, entries, positions := staged.revision, staged.entries, staged.positions;
      return Ok(outcomes);
    }

    /** Members in insertion order, with the revision they belong to. */
    method Snapshot() returns (at: u64, members: seq<Entry<Key, Backend>>)
      requires Valid()
      ensures at == revision && Keys(members) == View().roster.order
      ensures forall i :: 0 <= i < |members| ==>
        && members[i].key in View().roster.members
        && View().roster.members[members[i].key] == Member(members[i].backend, members[i].membership)
    {
      return revision, entries;
    }
  }

  lemma {:induction false} RefusedStaysRefused<Key, Backend>(
      c: Clocked<Key, Backend>, changes: seq<Change<Key, Backend>>, i: nat)
    requires i <= |changes| && Sequence(c, changes[..i]).1.Err?
    ensures Sequence(c, changes).1.Err?
    decreases |changes| - i
  {
    hide ChangedBy, Commit;
    if i == |changes| {
      assert changes[..i] == changes;
    } else {
      assert changes[..i + 1][..i] == changes[..i];
      RefusedStaysRefused(c, changes, i + 1);
    }
  }
}
