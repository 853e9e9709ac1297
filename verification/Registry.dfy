/** The insertion-ordered map that a membership directory refines, with its revision clock. */
module Registry {
  import opened Core

  datatype Membership = Active | Draining

  datatype Member<+Backend> = Member(backend: Backend, membership: Membership)

  datatype Change<+Key, +Backend> = Upsert(key: Key, backend: Backend) | Remove(key: Key)

  datatype Effect =
    | Inserted | Updated | Revived | DrainStarted | DrainFinished
    | AlreadyDraining | NotFound | NotDraining

  predicate Changed(effect: Effect) {
    effect.Inserted? || effect.Updated? || effect.Revived? || effect.DrainStarted? || effect.DrainFinished?
  }

  datatype Applied = Applied(effect: Effect, revision: u64)

  datatype RevisionExhausted = RevisionExhausted

  /** Who belongs, and in what order they first joined. */
  datatype Roster<Key, +Backend> = Roster(order: seq<Key>, members: map<Key, Member<Backend>>)

  datatype Clocked<Key, +Backend> = Clocked(roster: Roster<Key, Backend>, revision: u64)

  ghost predicate WellFormed<Key, Backend>(r: Roster<Key, Backend>) {
    && (forall i, j :: 0 <= i < j < |r.order| ==> r.order[i] != r.order[j])
    && (forall i :: 0 <= i < |r.order| ==> r.order[i] in r.members)
    && (forall k :: k in r.members ==> k in r.order)
  }

  function IndexOf<Key(==)>(order: seq<Key>, key: Key): (i: nat)
    requires key in order
    ensures i < |order| && order[i] == key
  {
    if order[0] == key then 0 else IndexOf(order[1..], key) + 1
  }

  function Leave<Key(==)>(order: seq<Key>, key: Key): seq<Key> {
    if key in order then order[..IndexOf(order, key)] + order[IndexOf(order, key) + 1..] else order
  }

  /** What a change does to the roster, and what it reports. */
  function Upserted<Key(==), Backend>(
      r: Roster<Key, Backend>, key: Key, backend: Backend): (Roster<Key, Backend>, Effect) {
    var members := r.members[key := Member(backend, Active)];
    if key !in r.members then (Roster(r.order + [key], members), Inserted)
    else (Roster(r.order, members), if r.members[key].membership == Draining then Revived else Updated)
  }

  function DrainBegun<Key(==), Backend>(r: Roster<Key, Backend>, key: Key): (Roster<Key, Backend>, Effect) {
    if key !in r.members then (r, NotFound)
    else if r.members[key].membership == Draining then (r, AlreadyDraining)
    else (Roster(r.order, r.members[key := Member(r.members[key].backend, Draining)]), DrainStarted)
  }

  function DrainDone<Key(==), Backend>(r: Roster<Key, Backend>, key: Key): (Roster<Key, Backend>, Effect) {
    if key !in r.members then (r, NotFound)
    else if r.members[key].membership == Active then (r, NotDraining)
    else (Roster(Leave(r.order, key), r.members - {key}), DrainFinished)
  }

  function ChangedBy<Key(==), Backend>(
      r: Roster<Key, Backend>, change: Change<Key, Backend>): (Roster<Key, Backend>, Effect) {
    match change
    case Upsert(key, backend) => Upserted(r, key, backend)
    case Remove(key) => DrainBegun(r, key)
  }

  /** An effective operation ticks the clock; one the clock cannot record is refused whole. */
  function Commit<Key, Backend>(c: Clocked<Key, Backend>, next: (Roster<Key, Backend>, Effect))
    : (Clocked<Key, Backend>, Result<Applied, RevisionExhausted>)
  {
    if !Changed(next.1) then (c, Ok(Applied(next.1, c.revision)))
    else if c.revision + 1 == U64_LIMIT then (c, Err(RevisionExhausted))
    else (Clocked(next.0, c.revision + 1), Ok(Applied(next.1, c.revision + 1)))
  }

  /** Changes one at a time, stopping at the first the clock refuses. */
  function Sequence<Key(==), Backend>(c: Clocked<Key, Backend>, changes: seq<Change<Key, Backend>>)
    : (r: (Clocked<Key, Backend>, Result<seq<Applied>, RevisionExhausted>))
    ensures r.1.Ok? ==> |r.1.value| == |changes|
  {
    if changes == [] then (c, Ok([])) else
      var last := |changes| - 1;
      var before := Sequence(c, changes[..last]);
      if before.1.Err? then before else
        var step := Commit(before.0, ChangedBy(before.0.roster, changes[last]));
        if step.1.Err? then (step.0, Err(RevisionExhausted))
        else (step.0, Ok(before.1.value + [step.1.value]))
  }

  /** A batch is its sequence, or nothing. */
  function Batch<Key(==), Backend>(c: Clocked<Key, Backend>, changes: seq<Change<Key, Backend>>)
    : (Clocked<Key, Backend>, Result<seq<Applied>, RevisionExhausted>)
  {
    var r := Sequence(c, changes);
    if r.1.Ok? then r else (c, r.1)
  }

  lemma LeaveKeepsOthers<Key>(order: seq<Key>, key: Key)
    requires key in order && forall i, j :: 0 <= i < j < |order| ==> order[i] != order[j]
    ensures var after := Leave(order, key);
      && (forall i, j :: 0 <= i < j < |after| ==> after[i] != after[j])
      && key !in after && |after| == |order| - 1
    ensures forall k :: k in order && k != key ==> k in Leave(order, key)
    ensures forall k :: k in Leave(order, key) ==> k in order
  {
    var i := IndexOf(order, key);
    hide IndexOf;
    var after := order[..i] + order[i + 1..];
    assert Leave(order, key) == after;
    forall j | 0 <= j < |after|
      ensures after[j] == order[if j < i then j else j + 1]
    {
    }
    forall k | k in order && k != key
      ensures k in after
    {
      var j :| 0 <= j < |order| && order[j] == k;
      assert after[if j < i then j else j - 1] == k;
    }
  }

  lemma UpsertKeepsWellFormed<Key, Backend>(r: Roster<Key, Backend>, key: Key, backend: Backend)
    requires WellFormed(r)
    ensures WellFormed(Upserted(r, key, backend).0)
  {
  }

  lemma DrainKeepsWellFormed<Key, Backend>(r: Roster<Key, Backend>, key: Key)
    requires WellFormed(r)
    ensures WellFormed(DrainBegun(r, key).0) && WellFormed(DrainDone(r, key).0)
  {
    if key in r.members {
      LeaveKeepsOthers(r.order, key);
    }
  }

  /** Joining again replaces the backend, ends a drain, keeps the place, touches nobody else, and says which it was. */
  lemma UpsertReplaces<Key, Backend>(r: Roster<Key, Backend>, key: Key, backend: Backend, other: Key)
    requires WellFormed(r)
    ensures var (after, effect) := Upserted(r, key, backend);
      && key in after.members && after.members[key] == Member(backend, Active)
      && (key != other ==> SameFate(after, r, other))
      && after.order == (if key in r.members then r.order else r.order + [key])
      && (effect == Inserted <==> key !in r.members)
      && (effect == Revived <==> key in r.members && r.members[key].membership == Draining)
      && (effect == Updated <==> key in r.members && r.members[key].membership == Active)
  {
  }

  /** Draining keeps the backend and the place; only an active member starts, only a draining one finishes. */
  lemma DrainLifecycle<Key, Backend>(r: Roster<Key, Backend>, key: Key, other: Key)
    requires WellFormed(r)
    ensures var (begun, effect) := DrainBegun(r, key);
      && begun.order == r.order && (key != other ==> SameFate(begun, r, other))
      && (key in r.members ==> key in begun.members && begun.members[key] == Member(r.members[key].backend, Draining))
      && (effect == DrainStarted <==> key in r.members && r.members[key].membership == Active)
      && (effect == AlreadyDraining <==> key in r.members && r.members[key].membership == Draining)
      && (effect == NotFound <==> key !in r.members)
    ensures var (done, effect) := DrainDone(r, key);
      && (key != other ==> SameFate(done, r, other))
      && (key in done.members <==> key in r.members && r.members[key].membership == Active)
      && (effect == DrainFinished <==> key in r.members && r.members[key].membership == Draining)
      && (effect == NotDraining <==> key in r.members && r.members[key].membership == Active)
      && (effect == NotFound <==> key !in r.members)
  {
  }

  /** How many of the changes would take effect, whatever the clock. */
  function EffectiveCount<Key(==), Backend>(r: Roster<Key, Backend>, changes: seq<Change<Key, Backend>>): nat {
    if changes == [] then 0 else
      var last := |changes| - 1;
      EffectiveCount(r, changes[..last])
        + if Changed(ChangedBy(After(r, changes[..last]), changes[last]).1) then 1 else 0
  }

  /** The roster after the changes, whatever the clock. */
  function After<Key(==), Backend>(r: Roster<Key, Backend>, changes: seq<Change<Key, Backend>>): Roster<Key, Backend> {
    if changes == [] then r else ChangedBy(After(r, changes[..|changes| - 1]), changes[|changes| - 1]).0
  }

  lemma UnchangedMeansSame<Key, Backend>(r: Roster<Key, Backend>, change: Change<Key, Backend>)
    ensures !Changed(ChangedBy(r, change).1) ==> ChangedBy(r, change).0 == r
  {
  }

  /**
   * The revision rises by exactly the number of effective changes, and a batch fails exactly when the clock cannot
   * hold them.
   */
  lemma {:induction false} BatchCountsEffectiveChanges<Key, Backend>(
      c: Clocked<Key, Backend>, changes: seq<Change<Key, Backend>>)
    ensures Batch(c, changes).1.Err? <==> c.revision + EffectiveCount(c.roster, changes) >= U64_LIMIT
    ensures Batch(c, changes).1.Err? ==> Batch(c, changes).0 == c
    ensures Batch(c, changes).1.Ok? ==>
      && Batch(c, changes).0.revision == c.revision + EffectiveCount(c.roster, changes)
      && Batch(c, changes).0.roster == After(c.roster, changes)
  {
    if changes != [] {
      hide ChangedBy;
      var last := |changes| - 1;
      BatchCountsEffectiveChanges(c, changes[..last]);
      UnchangedMeansSame(After(c.roster, changes[..last]), changes[last]);
    }
  }

  /** Everything a writer may ask of a directory. */
  datatype Operation<+Key, +Backend> = Apply(change: Change<Key, Backend>) | FinishDrain(key: Key)

  function OperatedBy<Key(==), Backend>(
      r: Roster<Key, Backend>, op: Operation<Key, Backend>): (Roster<Key, Backend>, Effect) {
    match op
    case Apply(change) => ChangedBy(r, change)
    case FinishDrain(key) => DrainDone(r, key)
  }

  function Operate<Key(==), Backend>(c: Clocked<Key, Backend>, op: Operation<Key, Backend>)
    : (Clocked<Key, Backend>, Result<Applied, RevisionExhausted>)
  {
    Commit(c, OperatedBy(c.roster, op))
  }

  ghost predicate IsRun<Key, Backend>(states: seq<Clocked<Key, Backend>>, ops: seq<Operation<Key, Backend>>) {
    && |states| == |ops| + 1
    && forall k :: 0 <= k < |ops| ==> states[k + 1] == Operate(states[k], ops[k]).0
  }

  /** The operation was accepted and reported a change. */
  predicate Effective<Key(==), Backend>(c: Clocked<Key, Backend>, op: Operation<Key, Backend>) {
    Operate(c, op).1.Ok? && Changed(Operate(c, op).1.value.effect)
  }

  ghost function EffectiveSteps<Key, Backend>(
      states: seq<Clocked<Key, Backend>>, ops: seq<Operation<Key, Backend>>, n: nat): nat
    requires n <= |ops| < |states|
  {
    if n == 0 then 0 else EffectiveSteps(states, ops, n - 1) + if Effective(states[n - 1], ops[n - 1]) then 1 else 0
  }

  /** One operation keeps the roster well formed, and touches it exactly when the clock ticks. */
  lemma OperationKeepsWellFormed<Key, Backend>(c: Clocked<Key, Backend>, op: Operation<Key, Backend>)
    requires WellFormed(c.roster)
    ensures WellFormed(Operate(c, op).0.roster)
    ensures Effective(c, op) ==>
      Operate(c, op).0.revision == c.revision + 1 && Operate(c, op).0.roster == OperatedBy(c.roster, op).0
    ensures !Effective(c, op) ==> Operate(c, op).0 == c
    ensures Operate(c, op).1.Ok? ==> OperatedBy(c.roster, op).0 == Operate(c, op).0.roster
  {
    match op {
      case Apply(Upsert(key, backend)) => UpsertKeepsWellFormed(c.roster, key, backend);
      case Apply(Remove(key)) => DrainKeepsWellFormed(c.roster, key);
      case FinishDrain(key) => DrainKeepsWellFormed(c.roster, key);
    }
  }

  /**
   * Over every run of upserts, removals and retirements the roster stays well formed, the revision rises by
   * exactly the number of effective operations, and an unchanged revision means nothing was touched.
   */
  lemma {:induction false} RevisionCountsEffectiveSteps<Key, Backend>(
      states: seq<Clocked<Key, Backend>>, ops: seq<Operation<Key, Backend>>, n: nat)
    requires IsRun(states, ops) && n <= |ops| && WellFormed(states[0].roster)
    ensures WellFormed(states[n].roster)
    ensures states[n].revision == states[0].revision + EffectiveSteps(states, ops, n)
    ensures states[n].revision == states[0].revision ==> states[n] == states[0]
    decreases n
  {
    if n > 0 {
      hide WellFormed, Operate;
      var before := n - 1;
      RevisionCountsEffectiveSteps(states, ops, before);
      OperationKeepsWellFormed(states[before], ops[before]);
      assert states[before + 1] == Operate(states[before], ops[before]).0;
    }
  }

  /** Committing two batches one after the other is committing them as one, unless the second is refused. */
  lemma {:induction false} BatchesConcatenate<Key, Backend>(
      c: Clocked<Key, Backend>, a: seq<Change<Key, Backend>>, b: seq<Change<Key, Backend>>)
    requires Batch(c, a).1.Ok?
    ensures Batch(c, a + b).1.Ok? <==> Batch(Batch(c, a).0, b).1.Ok?
    ensures Batch(c, a + b).1.Ok? ==>
      && Batch(c, a + b).0 == Batch(Batch(c, a).0, b).0
      && Batch(c, a + b).1.value == Batch(c, a).1.value + Batch(Batch(c, a).0, b).1.value
  {
    hide ChangedBy, Commit;
    if b == [] {
      assert a + b == a;
    } else {
      var last := |b| - 1;
      assert (a + b)[..|a + b| - 1] == a + b[..last];
      BatchesConcatenate(c, a, b[..last]);
    }
  }

  /** The changes that name this key. */
  function Naming<Key(==), Backend>(changes: seq<Change<Key, Backend>>, key: Key): seq<Change<Key, Backend>> {
    if changes == [] then [] else
      var last := |changes| - 1;
      Naming(changes[..last], key) + if changes[last].key == key then [changes[last]] else []
  }

  lemma AfterOneMore<Key, Backend>(
      r: Roster<Key, Backend>, changes: seq<Change<Key, Backend>>, change: Change<Key, Backend>)
    ensures After(r, changes + [change]) == ChangedBy(After(r, changes), change).0
  {
    assert (changes + [change])[..|changes|] == changes;
  }

  predicate SameFate<Key(==), Backend(==)>(a: Roster<Key, Backend>, b: Roster<Key, Backend>, key: Key) {
    (key in a.members <==> key in b.members) && (key in a.members ==> a.members[key] == b.members[key])
  }

  lemma FateFollowsItsKey<Key, Backend>(
      a: Roster<Key, Backend>, b: Roster<Key, Backend>, change: Change<Key, Backend>, key: Key)
    requires SameFate(a, b, key)
    ensures change.key == key ==> SameFate(ChangedBy(a, change).0, ChangedBy(b, change).0, key)
    ensures change.key != key ==> SameFate(ChangedBy(a, change).0, b, key)
  {
  }

  /** A member's fate depends only on the changes that name it, however others are interleaved. */
  lemma {:induction false} KeysAreIndependent<Key, Backend>(
      r: Roster<Key, Backend>, changes: seq<Change<Key, Backend>>, key: Key)
    ensures SameFate(After(r, changes), After(r, Naming(changes, key)), key)
  {
    if changes != [] {
      hide ChangedBy, SameFate;
      var last := |changes| - 1;
      var front, named := changes[..last], Naming(changes[..last], key);
      KeysAreIndependent(r, front, key);
      assert After(r, changes) == ChangedBy(After(r, front), changes[last]).0;
      FateFollowsItsKey(After(r, front), After(r, named), changes[last], key);
      if changes[last].key == key {
        AfterOneMore(r, named, changes[last]);
        assert Naming(changes, key) == named + [changes[last]];
      } else {
        assert Naming(changes, key) == named;
      }
    }
  }

  /** Joining, draining and leaving puts the roster back as it was. */
  lemma JoinAndLeaveRoundTrip<Key, Backend>(r: Roster<Key, Backend>, key: Key, backend: Backend)
    requires WellFormed(r) && key !in r.members
    ensures DrainDone(DrainBegun(Upserted(r, key, backend).0, key).0, key) == (r, DrainFinished)
  {
    var active, draining := Member(backend, Active), Member(backend, Draining);
    assert DrainBegun(Upserted(r, key, backend).0, key).0 ==
      Roster(r.order + [key], r.members[key := active][key := draining]);
    LastLeaves(r.order, key);
    PutAndRemove(r.members, key, active, draining);
  }

  lemma PutAndRemove<Key, Value>(m: map<Key, Value>, key: Key, x: Value, y: Value)
    requires key !in m
    ensures m[key := x][key := y] - {key} == m
  {
  }

  lemma LastLeaves<Key>(order: seq<Key>, key: Key)
    requires key !in order
    ensures Leave(order + [key], key) == order
  {
    IndexOfLast(order, key);
  }

  lemma IndexOfLast<Key>(order: seq<Key>, key: Key)
    requires key !in order
    ensures key in order + [key] && IndexOf(order + [key], key) == |order|
  {
    assert (order + [key])[|order|] == key;
    assert (order + [key])[IndexOf(order + [key], key)] == key;
  }
}
