/** Reconciling live endpoints with a discovery snapshot: all or nothing, keeping what did not change. */
module Reconciliation {
  import opened Core
  import opened Registry
  import opened Sorting

  /** A snapshot member; `allocation` identifies its shared backend value. */
  datatype Discovered<+Key> = Discovered(key: Key, allocation: nat, membership: Membership)

  /** A live endpoint: service, load tracker and readiness together are its runtime. */
  datatype Endpoint<+Key, +Runtime> = Endpoint(candidate: Discovered<Key>, runtime: Runtime)

  datatype Planned = Retained | Added | Rebuilt

  datatype Plan = Plan(reuse: seq<Option<nat>>, kinds: seq<Planned>)

  datatype ReconcileError<+FactoryError> =
    | StaleRevision(current: u64, attempted: u64)
    | DuplicateEndpointIdentity(first: nat, second: nat)
    | DuplicateSnapshotIdentity(first: nat, second: nat)
    | Build(index: nat, source: FactoryError)

  datatype ReconcileReport = ReconcileReport(
    revision: u64, applied: bool, retained: nat, added: nat, rebuilt: nat, removed: nat, draining: nat)

  function EndpointKeys<Key, Runtime>(es: seq<Endpoint<Key, Runtime>>): (r: seq<Key>)
    ensures |r| == |es| && forall i :: 0 <= i < |r| ==> r[i] == es[i].candidate.key
  {
    seq(|es|, i requires 0 <= i < |es| => es[i].candidate.key)
  }

  function MemberKeys<Key>(ms: seq<Discovered<Key>>): (r: seq<Key>)
    ensures |r| == |ms| && forall i :: 0 <= i < |r| ==> r[i] == ms[i].key
  {
    seq(|ms|, i requires 0 <= i < |ms| => ms[i].key)
  }

  /** `second` is the first position to repeat an earlier key, and `first` is where it came before. */
  ghost predicate FirstRepeat<T>(s: seq<T>, first: nat, second: nat) {
    first < second < |s| && s[first] == s[second] && Distinct(s[..second])
  }

  /** How snapshot position `i` is to be filled. */
  ghost predicate Plans<Key, Runtime>(
      live: seq<Endpoint<Key, Runtime>>, m: Discovered<Key>, reuse: Option<nat>, kind: Planned) {
    match kind
    case Retained =>
      && reuse.Some? && reuse.value < |live|
      && live[reuse.value].candidate.key == m.key && live[reuse.value].candidate.allocation == m.allocation
    case Rebuilt =>
      && reuse.None?
      && exists j :: 0 <= j < |live| && live[j].candidate.key == m.key && live[j].candidate.allocation != m.allocation
    case Added => reuse.None? && m.key !in EndpointKeys(live)
  }

  ghost predicate IsPlan<Key, Runtime>(live: seq<Endpoint<Key, Runtime>>, ms: seq<Discovered<Key>>, plan: Plan) {
    && |plan.reuse| == |plan.kinds| == |ms|
    && forall i :: 0 <= i < |ms| ==> Plans(live, ms[i], plan.reuse[i], plan.kinds[i])
  }

  /** Where each key sits. */
  ghost predicate Indexes<Key>(positions: map<Key, nat>, keys: seq<Key>) {
    && (forall k :: k in positions ==> positions[k] < |keys| && keys[positions[k]] == k)
    && (forall i :: 0 <= i < |keys| ==> keys[i] in positions)
  }

  method IndexKeys<Key(==,!new)>(keys: seq<Key>) returns (r: Result<map<Key, nat>, (nat, nat)>)
    ensures r.Ok? ==> Indexes(r.value, keys) && Distinct(keys)
    ensures r.Err? ==> FirstRepeat(keys, r.error.0, r.error.1)
  {
    var positions: map<Key, nat> := map[];
    for i := 0 to |keys|
      invariant Indexes(positions, keys[..i]) && Distinct(keys[..i])
    {
      if keys[i] in positions {
        return Err((positions[keys[i]], i));
      }
      IndexesGrow(positions, keys, i);
      positions := positions[keys[i] := i];
    }
    assert keys[..|keys|] == keys;
    return Ok(positions);
  }

  lemma IndexesGrow<Key>(positions: map<Key, nat>, keys: seq<Key>, i: nat)
    requires i < |keys| && Indexes(positions, keys[..i]) && Distinct(keys[..i]) && keys[i] !in positions
    ensures Indexes(positions[keys[i] := i], keys[..i + 1]) && Distinct(keys[..i + 1])
  {
    assert keys[..i + 1] == keys[..i] + [keys[i]];
    forall j | 0 <= j < i
      ensures keys[j] != keys[i]
    {
      assert keys[..i][j] in positions;
    }
  }

  function KindOf<Key, Runtime>(
      live: seq<Endpoint<Key, Runtime>>, positions: map<Key, nat>, m: Discovered<Key>): (r: (Option<nat>, Planned))
    requires Indexes(positions, EndpointKeys(live))
    ensures Plans(live, m, r.0, r.1)
  {
    if m.key !in positions then
      assert m.key !in EndpointKeys(live);
      (None, Added)
    else if live[positions[m.key]].candidate.allocation == m.allocation then (Some(positions[m.key]), Retained)
    else (None, Rebuilt)
  }

  /** Decide for every member whether its endpoint is kept, rebuilt or new; reject repeated identities first. */
  method MakePlan<Key(==,!new), Runtime, FactoryError>(live: seq<Endpoint<Key, Runtime>>, ms: seq<Discovered<Key>>)
    returns (r: Result<Plan, ReconcileError<FactoryError>>)
    ensures r.Ok? ==> IsPlan(live, ms, r.value) && Distinct(EndpointKeys(live)) && Distinct(MemberKeys(ms))
    ensures r.Err? ==>
      match r.error
      case DuplicateEndpointIdentity(first, second) => FirstRepeat(EndpointKeys(live), first, second)
      case DuplicateSnapshotIdentity(first, second) =>
        Distinct(EndpointKeys(live)) && FirstRepeat(MemberKeys(ms), first, second)
      case _ => false
  {
    var indexed := IndexKeys(EndpointKeys(live));
    if indexed.Err? {
      return Err(DuplicateEndpointIdentity(indexed.error.0, indexed.error.1));
    }
    var positions := indexed.value;
    var seen: map<Key, nat> := map[];
    var keys := MemberKeys(ms);
    var plan := Plan([], []);
    for i := 0 to |ms|
      invariant Indexes(seen, keys[..i]) && Distinct(keys[..i])
      invariant |plan.reuse| == |plan.kinds| == i
      invariant forall k :: 0 <= k < i ==> Plans(live, ms[k], plan.reuse[k], plan.kinds[k])
    {
      if ms[i].key in seen {
        return Err(DuplicateSnapshotIdentity(seen[ms[i].key], i));
      }
      IndexesGrow(seen, keys, i);
      seen := seen[ms[i].key := i];
      var (reuse, kind) := KindOf(live, positions, ms[i]);
      plan := Plan(plan.reuse + [reuse], plan.kinds + [kind]);
    }
    assert keys[..|ms|] == keys;
    return Ok(plan);
  }

  /** Build what is not retained, in snapshot order, stopping at the first failure. */
  method Stage<Key, Runtime, FactoryError>(
      ms: seq<Discovered<Key>>, kinds: seq<Planned>, builds: seq<Result<Runtime, FactoryError>>)
    returns (r: Result<seq<Option<Endpoint<Key, Runtime>>>, ReconcileError<FactoryError>>)
    requires |kinds| == |ms| == |builds|
    ensures r.Ok? ==> |r.value| == |ms| && forall i :: 0 <= i < |ms| ==>
      if kinds[i] == Retained then r.value[i] == None
      else builds[i].Ok? && r.value[i] == Some(Endpoint(ms[i], builds[i].value))
    ensures r.Err? ==> r.error.Build? && FirstFailure(kinds, builds, r.error.index, r.error.source)
  {
    var staged := [];
    for i := 0 to |ms|
      invariant |staged| == i
      invariant forall k :: 0 <= k < i ==>
        if kinds[k] == Retained then staged[k] == None
        else builds[k].Ok? && staged[k] == Some(Endpoint(ms[k], builds[k].value))
    {
      if kinds[i] == Retained {
        staged := staged + [None];
      } else {
        match builds[i] {
          case Err(source) => return Err(Build(i, source));
          case Ok(runtime) => staged := staged + [Some(Endpoint(ms[i], runtime))];
        }
      }
    }
    return Ok(staged);
  }

  ghost predicate FirstFailure<Runtime, FactoryError>(
      kinds: seq<Planned>, builds: seq<Result<Runtime, FactoryError>>, at: nat, source: FactoryError)
  {
    && at < |kinds| == |builds| && kinds[at] != Retained && builds[at] == Err(source)
    && forall k :: 0 <= k < at && kinds[k] != Retained ==> builds[k].Ok?
  }

  /** Which snapshot position each reused endpoint moves to. */
  ghost predicate Targets(target: map<nat, nat>, reuse: seq<Option<nat>>) {
    && (forall o :: o in target ==> target[o] < |reuse| && reuse[target[o]] == Some(o))
    && (forall i :: 0 <= i < |reuse| && reuse[i].Some? ==> reuse[i].value in target && target[reuse[i].value] == i)
  }

  /** No old endpoint is claimed by two members. */
  ghost predicate Injective(reuse: seq<Option<nat>>) {
    forall i, j :: 0 <= i < j < |reuse| && reuse[i].Some? ==> reuse[i] != reuse[j]
  }

  lemma PlanIsInjective<Key, Runtime>(
      live: seq<Endpoint<Key, Runtime>>, ms: seq<Discovered<Key>>, plan: Plan)
    requires IsPlan(live, ms, plan) && Distinct(MemberKeys(ms))
    ensures Injective(plan.reuse)
  {
    forall i, j | 0 <= i < j < |ms| && plan.reuse[i].Some?
      ensures plan.reuse[i] != plan.reuse[j]
    {
      assert Plans(live, ms[i], plan.reuse[i], plan.kinds[i]) && Plans(live, ms[j], plan.reuse[j], plan.kinds[j]);
      assert MemberKeys(ms)[i] != MemberKeys(ms)[j];
    }
  }

  method InvertReuse(reuse: seq<Option<nat>>) returns (target: map<nat, nat>)
    requires Injective(reuse)
    ensures Targets(target, reuse)
  {
    target := map[];
    for i := 0 to |reuse|
      invariant forall o :: o in target ==> target[o] < i && reuse[target[o]] == Some(o)
      invariant forall k :: 0 <= k < i && reuse[k].Some? ==> reuse[k].value in target && target[reuse[k].value] == k
    {
      if reuse[i].Some? {
        target := target[reuse[i].value := i];
      }
    }
  }

  /** Where the moved endpoints stand once the first `done` old ones have been handled. */
  ghost predicate Moved<Key, Runtime>(
      slots: seq<Option<Endpoint<Key, Runtime>>>, live: seq<Endpoint<Key, Runtime>>, ms: seq<Discovered<Key>>,
      reuse: seq<Option<nat>>, done: nat)
  {
    && |slots| == |ms| == |reuse| && done <= |live|
    && forall i :: 0 <= i < |ms| ==>
         slots[i] ==
           if reuse[i].Some? && reuse[i].value < done then Some(Endpoint(ms[i], live[reuse[i].value].runtime)) else None
  }

  /** Move reused endpoints into their slots, refreshing what they advertise. */
  method MoveRetained<Key, Runtime>(
      live: seq<Endpoint<Key, Runtime>>, ms: seq<Discovered<Key>>, reuse: seq<Option<nat>>)
    returns (slots: seq<Option<Endpoint<Key, Runtime>>>)
    requires |reuse| == |ms| && Injective(reuse)
    ensures Moved(slots, live, ms, reuse, |live|)
  {
    var target := InvertReuse(reuse);
    slots := seq(|ms|, _ => None);
    for o := 0 to |live|
      invariant Moved(slots, live, ms, reuse, o)
    {
      if o in target {
        slots := slots[target[o] := Some(live[o].(candidate := ms[target[o]]))];
      }
    }
  }

  /** Retained endpoints in their new places, and the staged ones in the rest. */
  method Assemble<Key, Runtime>(
      live: seq<Endpoint<Key, Runtime>>, ms: seq<Discovered<Key>>, plan: Plan,
      staged: seq<Option<Endpoint<Key, Runtime>>>)
    returns (endpoints: seq<Endpoint<Key, Runtime>>)
    requires IsPlan(live, ms, plan) && Injective(plan.reuse) && |staged| == |ms|
    requires forall i :: 0 <= i < |ms| ==> (staged[i].None? <==> plan.kinds[i] == Retained)
    ensures |endpoints| == |ms|
    ensures forall i :: 0 <= i < |ms| ==>
      endpoints[i] == if plan.kinds[i] == Retained then Endpoint(ms[i], live[plan.reuse[i].value].runtime)
                      else staged[i].value
  {
    PlanLengths(live, ms, plan);
    hide IsPlan, Injective;
    var slots := MoveRetained(live, ms, plan.reuse);
    for i := 0 to |staged|
      invariant |slots| == |ms|
      invariant forall k :: 0 <= k < |ms| && plan.kinds[k] == Retained ==>
        slots[k] == Some(Endpoint(ms[k], live[plan.reuse[k].value].runtime))
      invariant forall k :: 0 <= k < i && plan.kinds[k] != Retained ==> slots[k] == staged[k]
    {
      if staged[i].Some? {
        slots := slots[i := staged[i]];
      }
    }
    FlattenFull(slots);
    endpoints := Flatten(slots);
  }

  function Flatten<T>(slots: seq<Option<T>>): seq<T> {
    if slots == [] then [] else
      var last := |slots| - 1;
      match slots[last]
      case None => Flatten(slots[..last])
      case Some(x) => Flatten(slots[..last]) + [x]
  }

  /** Flattening loses nothing when every slot is full. */
  lemma {:induction false} FlattenFull<T>(slots: seq<Option<T>>)
    requires forall i :: 0 <= i < |slots| ==> slots[i].Some?
    ensures |Flatten(slots)| == |slots| && forall i :: 0 <= i < |slots| ==> slots[i] == Some(Flatten(slots)[i])
  {
    if slots != [] {
      FlattenFull(slots[..|slots| - 1]);
    }
  }

  function CountKind(kinds: seq<Planned>, kind: Planned): nat {
    if kinds == [] then 0 else CountKind(kinds[..|kinds| - 1], kind) + if kinds[|kinds| - 1] == kind then 1 else 0
  }

  function CountDraining<Key>(ms: seq<Discovered<Key>>): nat {
    if ms == [] then 0 else CountDraining(ms[..|ms| - 1]) + if ms[|ms| - 1].membership == Draining then 1 else 0
  }

  /** Snapshot positions that are draining. */
  ghost function DrainingAt<Key>(ms: seq<Discovered<Key>>): (r: set<nat>)
    ensures forall i: nat :: i in r <==> i < |ms| && ms[i].membership == Draining
  {
    set i: nat | i < |ms| && ms[i].membership == Draining
  }

  lemma {:induction false} DrainingAreCounted<Key>(ms: seq<Discovered<Key>>)
    ensures CountDraining(ms) == |DrainingAt(ms)|
  {
    if ms == [] {
      assert DrainingAt(ms) == {};
    } else {
      var last := |ms| - 1;
      DrainingAreCounted(ms[..last]);
      var before := DrainingAt(ms[..last]);
      assert last !in before;
      assert DrainingAt(ms) == if ms[last].membership == Draining then before + {last} else before;
    }
  }

  lemma {:induction false} KindsPartition(kinds: seq<Planned>)
    ensures CountKind(kinds, Retained) + CountKind(kinds, Added) + CountKind(kinds, Rebuilt) == |kinds|
  {
    if kinds != [] {
      KindsPartition(kinds[..|kinds| - 1]);
    }
  }

  function KeySet<T>(s: seq<T>): set<T> {
    set x | x in s
  }

  lemma KeySetStep<T>(s: seq<T>)
    requires Distinct(s) && s != []
    ensures var last := |s| - 1;
      KeySet(s) == KeySet(s[..last]) + {s[last]} && s[last] !in KeySet(s[..last]) && Distinct(s[..last])
  {
    var last := |s| - 1;
    assert s == s[..last] + [s[last]];
  }

  lemma PlanPrefix<Key, Runtime>(
      live: seq<Endpoint<Key, Runtime>>, ms: seq<Discovered<Key>>, plan: Plan)
    requires IsPlan(live, ms, plan) && ms != []
    ensures var last := |ms| - 1;
      && |plan.reuse| == |plan.kinds| == |ms|
      && IsPlan(live, ms[..last], Plan(plan.reuse[..last], plan.kinds[..last]))
      && Plans(live, ms[last], plan.reuse[last], plan.kinds[last])
      && MemberKeys(ms)[..last] == MemberKeys(ms[..last])
  {
    hide Plans;
  }

  /** Members that already had an endpoint are exactly the keys both sides share. */
  lemma {:induction false} SharedKeys<Key, Runtime>(
      live: seq<Endpoint<Key, Runtime>>, ms: seq<Discovered<Key>>, plan: Plan)
    requires IsPlan(live, ms, plan) && Distinct(MemberKeys(ms))
    ensures |KeySet(MemberKeys(ms)) * KeySet(EndpointKeys(live))| ==
      CountKind(plan.kinds, Retained) + CountKind(plan.kinds, Rebuilt)
    decreases |ms|
  {
    var olds := KeySet(EndpointKeys(live));
    if ms == [] {
      assert KeySet(MemberKeys(ms)) == {};
    } else {
      var last := |ms| - 1;
      var before := Plan(plan.reuse[..last], plan.kinds[..last]);
      PlanPrefix(live, ms, plan);
      hide IsPlan, Plans, Distinct;
      KeySetStep(MemberKeys(ms));
      SharedKeys(live, ms[..last], before);
      KindMeansPresent(live, ms[last], plan.reuse[last], plan.kinds[last]);
      hide KeySet;
      var news, earlier := KeySet(MemberKeys(ms)), KeySet(MemberKeys(ms[..last]));
      assert news == earlier + {ms[last].key};
      if plan.kinds[last] == Added {
        assert news * olds == earlier * olds;
      } else {
        assert news * olds == earlier * olds + {ms[last].key};
      }
    }
  }

  lemma KindMeansPresent<Key, Runtime>(
      live: seq<Endpoint<Key, Runtime>>, m: Discovered<Key>, reuse: Option<nat>, kind: Planned)
    requires Plans(live, m, reuse, kind)
    ensures kind == Added <==> m.key !in KeySet(EndpointKeys(live))
  {
    if kind == Retained {
      assert EndpointKeys(live)[reuse.value] == m.key;
    } else if kind == Rebuilt {
      var j :| 0 <= j < |live| && live[j].candidate.key == m.key;
      assert EndpointKeys(live)[j] == m.key;
    }
  }

  /** The removed count is exactly the old keys the snapshot no longer names. */
  lemma RemovedAreAbsent<Key, Runtime>(
      live: seq<Endpoint<Key, Runtime>>, ms: seq<Discovered<Key>>, plan: Plan)
    requires IsPlan(live, ms, plan) && Distinct(MemberKeys(ms)) && Distinct(EndpointKeys(live))
    ensures |KeySet(EndpointKeys(live)) - KeySet(MemberKeys(ms))| ==
      |live| - (CountKind(plan.kinds, Retained) + CountKind(plan.kinds, Rebuilt))
  {
    SharedKeys(live, ms, plan);
    DistinctCardinality(EndpointKeys(live));
    var olds, news := KeySet(EndpointKeys(live)), KeySet(MemberKeys(ms));
    assert olds == (olds - news) + (news * olds);
  }

  /** Same key, same backend allocation: the endpoint may be kept. */
  predicate SameBackend<Key(==)>(a: Discovered<Key>, b: Discovered<Key>) {
    a.key == b.key && a.allocation == b.allocation
  }

  /**
   * The snapshot's members in order, each keeping its runtime if it was live with the same backend, else freshly
   * built.
   */
  ghost predicate Reconciled<Key, Runtime, FactoryError>(
      live: seq<Endpoint<Key, Runtime>>, ms: seq<Discovered<Key>>, builds: seq<Result<Runtime, FactoryError>>,
      after: seq<Endpoint<Key, Runtime>>)
  {
    && |after| == |ms| == |builds|
    && (forall i :: 0 <= i < |ms| ==> after[i].candidate == ms[i])
    && (forall i, j :: 0 <= i < |ms| && 0 <= j < |live| && SameBackend(live[j].candidate, ms[i]) ==>
          after[i].runtime == live[j].runtime)
    && (forall i :: 0 <= i < |ms| && (forall j :: 0 <= j < |live| ==> !SameBackend(live[j].candidate, ms[i])) ==>
          builds[i] == Ok(after[i].runtime))
  }

  lemma PlannedIsReconciled<Key, Runtime, FactoryError>(
      live: seq<Endpoint<Key, Runtime>>, ms: seq<Discovered<Key>>, builds: seq<Result<Runtime, FactoryError>>,
      plan: Plan, after: seq<Endpoint<Key, Runtime>>)
    requires IsPlan(live, ms, plan) && Distinct(EndpointKeys(live)) && |after| == |ms| == |builds|
    requires forall i :: 0 <= i < |ms| ==>
      if plan.kinds[i] == Retained then after[i] == Endpoint(ms[i], live[plan.reuse[i].value].runtime)
      else builds[i].Ok? && after[i] == Endpoint(ms[i], builds[i].value)
    ensures Reconciled(live, ms, builds, after)
  {
    forall i | 0 <= i < |ms|
      ensures plan.kinds[i] == Retained ==> SameBackend(live[plan.reuse[i].value].candidate, ms[i])
      ensures forall j :: 0 <= j < |live| && SameBackend(live[j].candidate, ms[i]) ==>
        plan.kinds[i] == Retained && plan.reuse[i] == Some(j)
    {
      OnlyRetainedMatches(live, ms[i], plan.reuse[i], plan.kinds[i]);
    }
  }

  lemma OneHolder<Key, Runtime>(live: seq<Endpoint<Key, Runtime>>, j: nat, k: nat)
    requires Distinct(EndpointKeys(live)) && j < |live| && k < |live|
    ensures live[j].candidate.key == live[k].candidate.key ==> j == k
  {
    var keys := EndpointKeys(live);
    assert j < k ==> keys[j] != keys[k];
    assert k < j ==> keys[k] != keys[j];
  }

  lemma OnlyRetainedMatches<Key, Runtime>(
      live: seq<Endpoint<Key, Runtime>>, m: Discovered<Key>, reuse: Option<nat>, kind: Planned)
    requires Plans(live, m, reuse, kind) && Distinct(EndpointKeys(live))
    ensures kind == Retained ==> SameBackend(live[reuse.value].candidate, m)
    ensures forall j :: 0 <= j < |live| && SameBackend(live[j].candidate, m) ==> kind == Retained && reuse == Some(j)
  {
    match kind {
      case Retained =>
        forall j | 0 <= j < |live|
          ensures live[j].candidate.key == m.key ==> j == reuse.value
        {
          OneHolder(live, j, reuse.value);
        }
      case Rebuilt =>
        var k :| 0 <= k < |live| && live[k].candidate.key == m.key && live[k].candidate.allocation != m.allocation;
        forall j | 0 <= j < |live|
          ensures !SameBackend(live[j].candidate, m)
        {
          OneHolder(live, j, k);
        }
      case Added =>
        forall j | 0 <= j < |live|
          ensures live[j].candidate.key != m.key
        {
          assert EndpointKeys(live)[j] in EndpointKeys(live);
        }
    }
  }

  /** Snapshot positions whose endpoint is live with the same backend. */
  ghost function Reusable<Key, Runtime>(live: seq<Endpoint<Key, Runtime>>, ms: seq<Discovered<Key>>): (r: set<nat>)
    ensures forall i: nat :: i in r <==> i < |ms| && Live(live, ms[i])
  {
    set i: nat | i < |ms| && Live(live, ms[i])
  }

  ghost predicate Live<Key, Runtime>(live: seq<Endpoint<Key, Runtime>>, m: Discovered<Key>) {
    exists j :: 0 <= j < |live| && SameBackend(live[j].candidate, m)
  }

  lemma RetainedIffLive<Key, Runtime>(
      live: seq<Endpoint<Key, Runtime>>, m: Discovered<Key>, reuse: Option<nat>, kind: Planned)
    requires Plans(live, m, reuse, kind) && Distinct(EndpointKeys(live))
    ensures kind == Retained <==> Live(live, m)
  {
    OnlyRetainedMatches(live, m, reuse, kind);
  }

  lemma ReusableStep<Key, Runtime>(live: seq<Endpoint<Key, Runtime>>, ms: seq<Discovered<Key>>)
    requires ms != []
    ensures var last := |ms| - 1;
      |Reusable(live, ms)| == |Reusable(live, ms[..last])| + if Live(live, ms[last]) then 1 else 0
  {
    hide Live;
    var last := |ms| - 1;
    var before, after := Reusable(live, ms[..last]), Reusable(live, ms);
    assert last !in before;
    assert after == if Live(live, ms[last]) then before + {last} else before;
  }

  /** The retained count is exactly the members whose endpoint could be reused. */
  lemma {:induction false} RetainedAreReusable<Key, Runtime>(
      live: seq<Endpoint<Key, Runtime>>, ms: seq<Discovered<Key>>, plan: Plan)
    requires IsPlan(live, ms, plan) && Distinct(EndpointKeys(live))
    ensures CountKind(plan.kinds, Retained) == |Reusable(live, ms)|
    decreases |ms|
  {
    if ms == [] {
      assert Reusable(live, ms) == {};
    } else {
      var last := |ms| - 1;
      PlanPrefix(live, ms, plan);
      hide IsPlan, Plans, Distinct, Reusable, Live;
      RetainedAreReusable(live, ms[..last], Plan(plan.reuse[..last], plan.kinds[..last]));
      RetainedIffLive(live, ms[last], plan.reuse[last], plan.kinds[last]);
      ReusableStep(live, ms);
    }
  }

  /** The counts a successful reconciliation reports, as facts about the endpoints and the two key sets. */
  ghost predicate Accounts<Key, Runtime>(
      live: seq<Endpoint<Key, Runtime>>, ms: seq<Discovered<Key>>, report: ReconcileReport)
  {
    var olds, news := KeySet(EndpointKeys(live)), KeySet(MemberKeys(ms));
    && report.retained + report.added + report.rebuilt == |ms|
    && report.retained == |Reusable(live, ms)|
    && report.retained + report.rebuilt == |news * olds|
    && report.removed == |olds - news|
    && report.draining == |DrainingAt(ms)|
  }

  class DiscoveryBalance<Key(==,!new), Runtime(!new), FactoryError(!new)> {
    var endpoints: seq<Endpoint<Key, Runtime>>
    var revision: Option<u64>

    constructor ()
      ensures endpoints == [] && revision == None
    {
      endpoints, revision := [], None;
    }

    /** `builds[i]` is what the factory answers for member `i`; any error leaves everything as it was. */
    method ApplySnapshot(at: u64, ms: seq<Discovered<Key>>, builds: seq<Result<Runtime, FactoryError>>)
      returns (r: Result<ReconcileReport, ReconcileError<FactoryError>>)
      requires |builds| == |ms|
      modifies this
      ensures r.Err? ==> endpoints == old(endpoints) && revision == old(revision)
      ensures old(revision).Some? && at < old(revision).value ==> r == Err(StaleRevision(old(revision).value, at))
      ensures old(revision) == Some(at) ==>
        && endpoints == old(endpoints) && revision == old(revision)
        && r == Ok(ReconcileReport(at, false, |endpoints|, 0, 0, 0, |DrainingAt(Candidates(endpoints))|))
      ensures Advances(old(revision), at) && r.Ok? ==>
        && revision == Some(at) && Reconciled(old(endpoints), ms, builds, endpoints)
        && Distinct(EndpointKeys(endpoints))
        && r.value.applied && r.value.revision == at && Accounts(old(endpoints), ms, r.value)
      ensures Advances(old(revision), at) && r.Err? ==> Refuses(old(endpoints), ms, builds, r.error)
    {
      if revision.Some? {
        if at < revision.value {
          return Err(StaleRevision(revision.value, at));
        }
        if at == revision.value {
          DrainingAreCounted(Candidates(endpoints));
          return Ok(ReconcileReport(at, false, |endpoints|, 0, 0, 0, CountDraining(Candidates(endpoints))));
        }
      }
      hide Reconciled, Accounts, Refuses, Distinct;
      var reconciled := Reconcile(at, endpoints, ms, builds);
      if reconciled.Err? {
        return Err(reconciled.error);
      }
      endpoints := reconciled.value.0;
      revision := Some(at);
      return Ok(reconciled.value.1);
    }
  }

  /** Plan, stage, assemble and count. */
  method Reconcile<Key(==,!new), Runtime(!new), FactoryError(!new)>(
      at: u64, live: seq<Endpoint<Key, Runtime>>, ms: seq<Discovered<Key>>, builds: seq<Result<Runtime, FactoryError>>)
    returns (r: Result<(seq<Endpoint<Key, Runtime>>, ReconcileReport), ReconcileError<FactoryError>>)
    requires |builds| == |ms|
    ensures r.Ok? ==>
      && Reconciled(live, ms, builds, r.value.0) && Distinct(EndpointKeys(r.value.0))
      && r.value.1.applied && r.value.1.revision == at && Accounts(live, ms, r.value.1)
    ensures r.Err? ==> Refuses(live, ms, builds, r.error)
  {
    hide Reconciled, IsPlan, CountKind, CountDraining, DrainingAt, Reusable, Injective, Distinct, FirstRepeat,
      FirstFailure, Plans;
    var planned := MakePlan<Key, Runtime, FactoryError>(live, ms);
    if planned.Err? {
      return Err(planned.error);
    }
    var plan := planned.value;
    PlanIsInjective(live, ms, plan);
    PlanLengths(live, ms, plan);
    var staged := Stage(ms, plan.kinds, builds);
    if staged.Err? {
      return Err(staged.error);
    }
    var endpoints := Assemble(live, ms, plan, staged.value);
    PlannedIsReconciled(live, ms, builds, plan, endpoints);
    assert EndpointKeys(endpoints) == MemberKeys(ms);
    var retained, added := CountKind(plan.kinds, Retained), CountKind(plan.kinds, Added);
    var rebuilt := CountKind(plan.kinds, Rebuilt);
    KindsPartition(plan.kinds);
    SharedKeys(live, ms, plan);
    RetainedAreReusable(live, ms, plan);
    RemovedAreAbsent(live, ms, plan);
    DrainingAreCounted(ms);
    var removed := if |live| < retained + rebuilt then 0 else |live| - (retained + rebuilt);
    return Ok((endpoints, ReconcileReport(at, true, retained, added, rebuilt, removed, CountDraining(ms))));
  }

  function Candidates<Key, Runtime>(es: seq<Endpoint<Key, Runtime>>): (r: seq<Discovered<Key>>)
    ensures |r| == |es| && forall i :: 0 <= i < |r| ==> r[i] == es[i].candidate
  {
    seq(|es|, i requires 0 <= i < |es| => es[i].candidate)
  }

  predicate Advances(revision: Option<u64>, at: u64) {
    revision.Some? ==> revision.value < at
  }

  lemma PlanLengths<Key, Runtime>(
      live: seq<Endpoint<Key, Runtime>>, ms: seq<Discovered<Key>>, plan: Plan)
    requires IsPlan(live, ms, plan)
    ensures |plan.reuse| == |plan.kinds| == |ms|
    ensures forall i :: 0 <= i < |ms| && plan.kinds[i] == Retained ==>
      plan.reuse[i].Some? && plan.reuse[i].value < |live|
  {
    forall i | 0 <= i < |ms| && plan.kinds[i] == Retained
      ensures plan.reuse[i].Some? && plan.reuse[i].value < |live|
    {
      assert Plans(live, ms[i], plan.reuse[i], plan.kinds[i]);
    }
  }

  /** Why a newer snapshot is refused: a repeated identity, or the first build that fails. */
  ghost predicate Refuses<Key, Runtime, FactoryError>(
      live: seq<Endpoint<Key, Runtime>>, ms: seq<Discovered<Key>>, builds: seq<Result<Runtime, FactoryError>>,
      error: ReconcileError<FactoryError>)
  {
    match error
    case StaleRevision(_, _) => false
    case DuplicateEndpointIdentity(first, second) => FirstRepeat(EndpointKeys(live), first, second)
    case DuplicateSnapshotIdentity(first, second) =>
      Distinct(EndpointKeys(live)) && FirstRepeat(MemberKeys(ms), first, second)
    case Build(index, source) =>
      && Distinct(EndpointKeys(live)) && Distinct(MemberKeys(ms))
      && exists plan :: IsPlan(live, ms, plan) && FirstFailure(plan.kinds, builds, index, source)
  }

  /** A chain of applied snapshots. */
  ghost predicate IsChain<Key, Runtime, FactoryError>(
      states: seq<seq<Endpoint<Key, Runtime>>>, snapshots: seq<seq<Discovered<Key>>>,
      builds: seq<seq<Result<Runtime, FactoryError>>>)
  {
    && |states| == |snapshots| + 1 && |builds| == |snapshots|
    && forall k :: 0 <= k < |snapshots| ==> Reconciled(states[k], snapshots[k], builds[k], states[k + 1])
  }

  ghost predicate Names<Key>(ms: seq<Discovered<Key>>, m: Discovered<Key>) {
    exists i :: 0 <= i < |ms| && SameBackend(ms[i], m)
  }

  ghost predicate Holds<Key, Runtime>(es: seq<Endpoint<Key, Runtime>>, m: Discovered<Key>, runtime: Runtime) {
    exists i :: 0 <= i < |es| && SameBackend(es[i].candidate, m) && es[i].runtime == runtime
  }

  /** An endpoint named with the same backend by every snapshot keeps its service, load and readiness to the end. */
  lemma {:induction false} RuntimeSurvives<Key, Runtime, FactoryError>(
      states: seq<seq<Endpoint<Key, Runtime>>>, snapshots: seq<seq<Discovered<Key>>>,
      builds: seq<seq<Result<Runtime, FactoryError>>>, m: Discovered<Key>, runtime: Runtime, n: nat)
    requires IsChain(states, snapshots, builds) && n <= |snapshots|
    requires Holds(states[0], m, runtime) && forall k :: 0 <= k < n ==> Names(snapshots[k], m)
    ensures Holds(states[n], m, runtime)
    decreases n
  {
    if n > 0 {
      var before := n - 1;
      RuntimeSurvives(states, snapshots, builds, m, runtime, before);
      assert Reconciled(states[before], snapshots[before], builds[before], states[before + 1]);
      KeptOnce(states[before], snapshots[before], builds[before], states[before + 1], m, runtime);
    }
  }

  lemma KeptOnce<Key, Runtime, FactoryError>(
      live: seq<Endpoint<Key, Runtime>>, ms: seq<Discovered<Key>>, builds: seq<Result<Runtime, FactoryError>>,
      after: seq<Endpoint<Key, Runtime>>, m: Discovered<Key>, runtime: Runtime)
    requires Reconciled(live, ms, builds, after) && Holds(live, m, runtime) && Names(ms, m)
    ensures Holds(after, m, runtime)
  {
    var j :| 0 <= j < |live| && SameBackend(live[j].candidate, m) && live[j].runtime == runtime;
    var i :| 0 <= i < |ms| && SameBackend(ms[i], m);
    assert SameBackend(live[j].candidate, ms[i]);
    assert after[i].runtime == runtime && SameBackend(after[i].candidate, m);
  }
}
