/** The snapshot channel as a state machine over its atomic loads, stores and mutex sections. */
module SnapshotChannel {
  import opened Core

  /** A published snapshot is identified by its revision: publication only ever moves forward. */
  type Revision = nat
  type StreamId = nat
  /** The task a waker resumes; two wakers `will_wake` alike when they name the same task. */
  type Task = nat

  datatype Publisher =
    | Idle
    | MustWake(dropping: bool)
    | Collecting(dropping: bool, pending: seq<StreamId>, wake: seq<Task>)
    | Waking(dropping: bool, wake: seq<Task>)
    | Gone

  datatype PollPc =
    | Unattached
    | Resting
    | CheckAlive
    | Register
    | Recheck
    | ClearThenYield(revision: Revision)
    | RecheckAlive
    | ClearThenEnd

  datatype Outcome = NotPolled | Item(revision: Revision) | End | Pending

  /**
   * One subscriber. The last five fields only record history: the task of the latest poll, whether
   * that task was woken since the poll began, every yielded revision, whether a publication was
   * stored since the latest load, and whether the publisher was alive when the latest poll began.
   */
  datatype Stream = Stream(
    lastSeen: Option<Revision>, terminated: bool, waker: Option<Task>, pc: PollPc, outcome: Outcome,
    task: Task, woken: bool, yielded: seq<Revision>, storedSinceLoad: bool, startedAlive: bool)

  datatype State = State(
    current: Revision, alive: bool, waiters: seq<StreamId>, publisher: Publisher,
    streams: map<StreamId, Stream>, published: seq<Revision>)

  datatype Step =
    | Create(id: StreamId, onlyChanges: bool)
    | Attach(id: StreamId)
    | PollStart(id: StreamId, task: Task)
    | PollNext(id: StreamId)
    | DropStream(id: StreamId)
    | Store(revision: Revision)
    | DropPublisher
    | PublisherNext

  function Init(revision: Revision): State {
    State(revision, true, [], Idle, map[], [revision])
  }

  // ----- subscriber steps

  function NewStream(s: State, onlyChanges: bool): Stream {
    Stream(if onlyChanges then Some(s.current) else None, false, None, Unattached, NotPolled,
           0, false, [], false, s.alive)
  }

  function Yield(st: Stream, revision: Revision): Stream {
    st.(lastSeen := Some(revision), pc := Resting, outcome := Item(revision), yielded := st.yielded + [revision])
  }

  function Terminate(st: Stream): Stream {
    st.(terminated := true, pc := Resting, outcome := End)
  }

  /** A poll up to and including its first load of the current snapshot. */
  function StartPoll(s: State, st: Stream, task: Task): Stream {
    if st.terminated then st.(outcome := End)
    else
      var loaded := st.(task := task, woken := false, storedSinceLoad := false, startedAlive := s.alive);
      if st.lastSeen.None? || s.current > st.lastSeen.value then Yield(loaded, s.current)
      else loaded.(pc := CheckAlive)
  }

  /** The next atomic access of a poll already under way. */
  function ContinuePoll(s: State, st: Stream): Stream
    requires st.pc != Unattached && st.pc != Resting
  {
    match st.pc
    case CheckAlive => if s.alive then st.(pc := Register) else Terminate(st)
    case Register =>
      var waker := if st.waker.None? || st.waker.value != st.task then Some(st.task) else st.waker;
      st.(waker := waker, pc := Recheck)
    case Recheck =>
      var loaded := st.(storedSinceLoad := false);
      if st.lastSeen.Some? && s.current > st.lastSeen.value then loaded.(pc := ClearThenYield(s.current))
      else loaded.(pc := RecheckAlive)
    case ClearThenYield(revision) => Yield(st.(waker := None), revision)
    case RecheckAlive => if s.alive then st.(pc := Resting, outcome := Pending) else st.(pc := ClearThenEnd)
    case ClearThenEnd => Terminate(st.(waker := None))
  }

  // ----- publisher steps

  function NoteStore(streams: map<StreamId, Stream>): map<StreamId, Stream> {
    map id | id in streams :: streams[id].(storedSinceLoad := true)
  }

  function NoteWake(streams: map<StreamId, Stream>, task: Task): map<StreamId, Stream> {
    map id | id in streams ::
      if streams[id].task == task then streams[id].(woken := true) else streams[id]
  }

  function Without(ids: seq<StreamId>, id: StreamId): seq<StreamId> {
    if ids == [] then [] else if ids[0] == id then Without(ids[1..], id) else [ids[0]] + Without(ids[1..], id)
  }

  /** Visit one waiter under the list lock: prune it if its stream is gone, otherwise take its waker. */
  function CollectOne(s: State): State
    requires s.publisher.Collecting? && s.publisher.pending != []
  {
    var Collecting(dropping, pending, wake) := s.publisher;
    var id, rest := pending[0], pending[1..];
    if id !in s.streams then s.(waiters := Without(s.waiters, id), publisher := Collecting(dropping, rest, wake))
    else
      var st := s.streams[id];
      var taken := if st.waker.Some? then [st.waker.value] else [];
      s.(streams := s.streams[id := st.(waker := None)], publisher := Collecting(dropping, rest, wake + taken))
  }

  predicate PublisherBusy(s: State) {
    s.publisher != Idle && s.publisher != Gone
  }

  /** Wake-up work is deterministic: lock and collect, unlock, wake each collected task, finish. */
  function WakeStep(s: State): State
    requires PublisherBusy(s)
  {
    match s.publisher
    case MustWake(d) => s.(publisher := Collecting(d, s.waiters, []))
    case Collecting(d, pending, wake) =>
      if pending == [] then s.(publisher := Waking(d, wake)) else CollectOne(s)
    case Waking(d, wake) =>
      if wake == [] then s.(publisher := if d then Gone else Idle)
      else s.(publisher := Waking(d, wake[1..]), streams := NoteWake(s.streams, wake[0]))
  }

  // ----- the transition relation

  predicate Enabled(s: State, step: Step) {
    match step
    case Create(id, _) => id !in s.streams && id !in s.waiters
    case Attach(id) => id in s.streams && s.streams[id].pc == Unattached && !s.publisher.Collecting?
    case PollStart(id, _) => id in s.streams && s.streams[id].pc == Resting
    case PollNext(id) => id in s.streams && s.streams[id].pc != Unattached && s.streams[id].pc != Resting
    case DropStream(id) => id in s.streams && (s.streams[id].pc == Unattached || s.streams[id].pc == Resting)
    case Store(revision) => s.publisher == Idle && revision > s.current
    case DropPublisher => s.publisher == Idle
    case PublisherNext => PublisherBusy(s)
  }

  function Apply(s: State, step: Step): State
    requires Enabled(s, step)
  {
    match step
    case Create(id, onlyChanges) => s.(streams := s.streams[id := NewStream(s, onlyChanges)])
    case Attach(id) =>
      s.(streams := s.streams[id := s.streams[id].(pc := Resting)], waiters := s.waiters + [id])
    case PollStart(id, task) => s.(streams := s.streams[id := StartPoll(s, s.streams[id], task)])
    case PollNext(id) => s.(streams := s.streams[id := ContinuePoll(s, s.streams[id])])
    case DropStream(id) => s.(streams := s.streams - {id})
    case Store(revision) =>
      s.(current := revision, published := s.published + [revision], publisher := MustWake(false),
         streams := NoteStore(s.streams))
    case DropPublisher => s.(alive := false, publisher := MustWake(true))
    case PublisherNext => WakeStep(s)
  }

  ghost predicate IsRun(states: seq<State>, steps: seq<Step>) {
    && |states| == |steps| + 1
    && (exists revision: Revision :: states[0] == Init(revision))
    && forall i :: 0 <= i < |steps| ==> Enabled(states[i], steps[i]) && states[i + 1] == Apply(states[i], steps[i])
  }

  // ----- what every reachable state satisfies

  function WakeList(p: Publisher): seq<Task> {
    match p
    case Collecting(_, _, wake) => wake
    case Waking(_, wake) => wake
    case _ => []
  }

  /** The publisher has this stream's latest waker in hand, or is certain to take it. */
  predicate PublisherWillWake(s: State, id: StreamId)
    requires id in s.streams
  {
    var st := s.streams[id];
    || st.task in WakeList(s.publisher)
    || (st.waker == Some(st.task)
        && (s.publisher.MustWake? || (s.publisher.Collecting? && id in s.publisher.pending)))
  }

  predicate IsPending(st: Stream) {
    st.pc == Resting && !st.terminated && st.outcome == Pending
  }

  ghost predicate StrictlyIncreasing(rs: seq<Revision>) {
    forall i, j :: 0 <= i < j < |rs| ==> rs[i] < rs[j]
  }

  predicate PastFirstLoad(st: Stream) {
    (st.pc != Unattached && st.pc != Resting) || IsPending(st) || st.terminated
  }

  ghost predicate CursorInv(s: State, st: Stream) {
    && (st.lastSeen.Some? ==> st.lastSeen.value <= s.current)
    && StrictlyIncreasing(st.yielded)
    && (st.yielded != [] ==> st.lastSeen == Some(st.yielded[|st.yielded| - 1]))
    && (forall r :: r in st.yielded ==> r in s.published)
    && (PastFirstLoad(st) ==> st.lastSeen.Some?)
    && (st.pc == Unattached ==> st.outcome == NotPolled && !st.terminated)
    && (st.pc.ClearThenYield? ==>
          st.lastSeen.value < st.pc.revision <= s.current && st.pc.revision in s.published)
  }

  ghost predicate LifetimeInv(s: State, st: Stream) {
    && (st.terminated ==> !s.alive && st.pc == Resting && st.outcome == End)
    && (st.pc == ClearThenEnd ==> !s.alive)
    && (st.pc == CheckAlive || st.pc == RecheckAlive || st.pc == ClearThenEnd || st.terminated ==>
          && st.lastSeen.Some?
          && (st.storedSinceLoad <==> st.lastSeen.value < s.current)
          && (!st.startedAlive ==> !s.alive && !st.storedSinceLoad))
    && (!st.startedAlive ==> !s.alive)
  }

  ghost predicate WakeInv(s: State, id: StreamId)
    requires id in s.streams
  {
    var st := s.streams[id];
    && (st.pc == Recheck || st.pc == RecheckAlive || IsPending(st) ==>
          st.waker == Some(st.task) || st.woken || st.task in WakeList(s.publisher))
    && (st.pc == RecheckAlive || IsPending(st) ==>
          st.lastSeen.Some? && (s.current > st.lastSeen.value ==> st.woken || PublisherWillWake(s, id)))
    && (IsPending(st) && !s.alive ==> st.woken || PublisherWillWake(s, id))
  }

  ghost predicate StreamInv(s: State, id: StreamId)
    requires id in s.streams
  {
    && CursorInv(s, s.streams[id])
    && LifetimeInv(s, s.streams[id])
    && WakeInv(s, id)
    && (s.streams[id].pc != Unattached ==> id in s.waiters)
  }

  ghost predicate ChannelInv(s: State) {
    && s.published != [] && StrictlyIncreasing(s.published) && s.current == s.published[|s.published| - 1]
    && (s.publisher == Idle ==> s.alive)
    && (s.publisher == Gone ==> !s.alive)
    && (PublisherBusy(s) ==> (s.alive <==> !s.publisher.dropping))
  }

  ghost predicate Inv(s: State) {
    ChannelInv(s) && forall id :: id in s.streams ==> StreamInv(s, id)
  }

  lemma InitInv(revision: Revision)
    ensures Inv(Init(revision))
  {
  }

  /**
   * A stream's guarantees survive while it, the channel and the publisher stay as they are; the waiter list may
   * grow.
   */
  lemma UntouchedStream(s: State, s': State, j: StreamId)
    requires j in s.streams && StreamInv(s, j) && j in s'.streams && s'.streams[j] == s.streams[j]
    requires s'.current == s.current && s'.alive == s.alive && s'.publisher == s.publisher
      && s'.published == s.published
    requires forall id :: id in s.waiters ==> id in s'.waiters
    ensures StreamInv(s', j)
  {
    hide StrictlyIncreasing;
  }

  /** A step that changes one stream and nothing else leaves the other streams' guarantees alone. */
  lemma OneStreamChanges(s: State, s': State, id: StreamId)
    requires Inv(s) && id in s'.streams && s' == s.(streams := s.streams[id := s'.streams[id]])
    requires StreamInv(s', id)
    ensures Inv(s')
  {
    hide StreamInv, StrictlyIncreasing;
    forall j | j in s'.streams
      ensures StreamInv(s', j)
    {
      if j != id {
        UntouchedStream(s, s', j);
      }
    }
  }

  lemma CreateKeepsInv(s: State, id: StreamId, onlyChanges: bool)
    requires Inv(s) && Enabled(s, Create(id, onlyChanges))
    ensures Inv(Apply(s, Create(id, onlyChanges)))
  {
    OneStreamChanges(s, Apply(s, Create(id, onlyChanges)), id);
  }

  lemma AttachKeepsStream(s: State, id: StreamId)
    requires Inv(s) && Enabled(s, Attach(id))
    ensures StreamInv(Apply(s, Attach(id)), id)
  {
    assert StreamInv(s, id);
    hide Inv, StrictlyIncreasing;
  }

  lemma AttachKeepsInv(s: State, id: StreamId)
    requires Inv(s) && Enabled(s, Attach(id))
    ensures Inv(Apply(s, Attach(id)))
  {
    hide StreamInv, StrictlyIncreasing;
    var s' := Apply(s, Attach(id));
    AttachKeepsStream(s, id);
    forall j | j in s'.streams
      ensures StreamInv(s', j)
    {
      if j != id {
        UntouchedStream(s, s', j);
      }
    }
  }

  lemma PollStartKeepsCursor(s: State, id: StreamId, task: Task)
    requires Inv(s) && Enabled(s, PollStart(id, task))
    ensures CursorInv(s, StartPoll(s, s.streams[id], task))
  {
    hide Inv, StrictlyIncreasing, LifetimeInv, WakeInv;
    StreamFacts(s, id);
    var st := s.streams[id];
    if !st.terminated && (st.lastSeen.None? || s.current > st.lastSeen.value) {
      YieldKeepsCursor(s, st, s.current);
    }
  }

  lemma PollStartKeepsLifetime(s: State, id: StreamId, task: Task)
    requires Inv(s) && Enabled(s, PollStart(id, task))
    ensures LifetimeInv(s, StartPoll(s, s.streams[id], task))
  {
    assert StreamInv(s, id);
    hide Inv, StrictlyIncreasing, WakeInv;
  }

  lemma PollStartKeepsInv(s: State, id: StreamId, task: Task)
    requires Inv(s) && Enabled(s, PollStart(id, task))
    ensures Inv(Apply(s, PollStart(id, task)))
  {
    assert StreamInv(s, id);
    hide Inv, CursorInv, LifetimeInv;
    var s' := Apply(s, PollStart(id, task));
    PollStartKeepsCursor(s, id, task);
    PollStartKeepsLifetime(s, id, task);
    OneStreamChanges(s, s', id);
  }

  lemma PollNextKeepsLifetime(s: State, id: StreamId)
    requires Inv(s) && Enabled(s, PollNext(id))
    ensures LifetimeInv(s, ContinuePoll(s, s.streams[id]))
  {
    assert StreamInv(s, id);
    hide Inv, StrictlyIncreasing, WakeInv;
  }

  lemma YieldKeepsCursor(s: State, st: Stream, revision: Revision)
    requires CursorInv(s, st) && revision <= s.current && revision in s.published
    requires st.lastSeen.None? || st.lastSeen.value < revision
    ensures StrictlyIncreasing(st.yielded + [revision])
    ensures forall r :: r in st.yielded + [revision] ==> r in s.published
  {
    var yielded := st.yielded;
    if yielded != [] {
      assert yielded[|yielded| - 1] < revision;
    }
  }

  lemma StreamFacts(s: State, id: StreamId)
    requires Inv(s) && id in s.streams
    ensures CursorInv(s, s.streams[id]) && LifetimeInv(s, s.streams[id]) && WakeInv(s, id) && s.current in s.published
  {
    assert StreamInv(s, id);
    hide StrictlyIncreasing, CursorInv, LifetimeInv, WakeInv;
  }

  lemma PollingHasCursor(s: State, st: Stream)
    requires CursorInv(s, st) && st.pc != Unattached && st.pc != Resting
    ensures st.lastSeen.Some?
  {
  }

  /** A stream that keeps its cursor and its yields keeps its guarantees about them. */
  lemma CursorCarries(s: State, st: Stream, st': Stream)
    requires CursorInv(s, st) && st.lastSeen.Some? && st'.lastSeen == st.lastSeen && st'.yielded == st.yielded
    requires st'.pc != Unattached
    requires st'.pc.ClearThenYield? ==>
      st.lastSeen.value < st'.pc.revision <= s.current && st'.pc.revision in s.published
    ensures CursorInv(s, st')
  {
    hide StrictlyIncreasing;
  }

  lemma QuietPollKeepsCursor(s: State, id: StreamId)
    requires Inv(s) && Enabled(s, PollNext(id)) && !s.streams[id].pc.ClearThenYield?
    ensures CursorInv(s, ContinuePoll(s, s.streams[id]))
  {
    hide Inv, CursorInv, WakeInv, LifetimeInv;
    StreamFacts(s, id);
    PollingHasCursor(s, s.streams[id]);
    CursorCarries(s, s.streams[id], ContinuePoll(s, s.streams[id]));
  }

  lemma PollNextKeepsCursor(s: State, id: StreamId)
    requires Inv(s) && Enabled(s, PollNext(id))
    ensures CursorInv(s, ContinuePoll(s, s.streams[id]))
  {
    assert StreamInv(s, id);
    var st := s.streams[id];
    if st.pc.ClearThenYield? {
      hide Inv, StrictlyIncreasing, WakeInv, LifetimeInv;
      YieldKeepsCursor(s, st, st.pc.revision);
    } else {
      hide Inv, CursorInv, ContinuePoll;
      QuietPollKeepsCursor(s, id);
    }
  }

  /** Once the waker is registered and the recheck done, whatever was stored since has a wake-up coming. */
  lemma RecheckKeepsWake(s: State, id: StreamId)
    requires Inv(s) && Enabled(s, PollNext(id)) && (s.streams[id].pc == Recheck || s.streams[id].pc == RecheckAlive)
    ensures WakeInv(Apply(s, PollNext(id)), id)
  {
    assert StreamInv(s, id);
    hide Inv, StrictlyIncreasing, LifetimeInv;
  }

  lemma EarlierPollKeepsWake(s: State, id: StreamId)
    requires Inv(s) && Enabled(s, PollNext(id)) && s.streams[id].pc != Recheck && s.streams[id].pc != RecheckAlive
    ensures WakeInv(Apply(s, PollNext(id)), id)
  {
    assert StreamInv(s, id);
    hide Inv, StrictlyIncreasing, LifetimeInv, PublisherWillWake;
  }

  lemma PollNextKeepsWake(s: State, id: StreamId)
    requires Inv(s) && Enabled(s, PollNext(id))
    ensures WakeInv(Apply(s, PollNext(id)), id)
  {
    hide Inv, WakeInv, ContinuePoll;
    if s.streams[id].pc == Recheck || s.streams[id].pc == RecheckAlive {
      RecheckKeepsWake(s, id);
    } else {
      EarlierPollKeepsWake(s, id);
    }
  }

  lemma PollNextKeepsInv(s: State, id: StreamId)
    requires Inv(s) && Enabled(s, PollNext(id))
    ensures Inv(Apply(s, PollNext(id)))
  {
    assert StreamInv(s, id);
    var s' := Apply(s, PollNext(id));
    PollNextKeepsCursor(s, id);
    PollNextKeepsLifetime(s, id);
    PollNextKeepsWake(s, id);
    hide ContinuePoll, CursorInv, LifetimeInv, WakeInv, Inv;
    assert StreamInv(s', id);
    OneStreamChanges(s, s', id);
  }

  lemma DropStreamKeepsInv(s: State, id: StreamId)
    requires Inv(s) && Enabled(s, DropStream(id))
    ensures Inv(Apply(s, DropStream(id)))
  {
    var s' := Apply(s, DropStream(id));
    forall j | j in s'.streams
      ensures StreamInv(s', j)
    {
      assert StreamInv(s, j);
    }
  }

  lemma StoreKeepsInv(s: State, revision: Revision)
    requires Inv(s) && Enabled(s, Store(revision))
    ensures Inv(Apply(s, Store(revision)))
  {
    var s' := Apply(s, Store(revision));
    forall j | j in s'.streams
      ensures StreamInv(s', j)
    {
      assert StreamInv(s, j);
    }
  }

  lemma DropPublisherKeepsInv(s: State)
    requires Inv(s) && Enabled(s, DropPublisher)
    ensures Inv(Apply(s, DropPublisher))
  {
    var s' := Apply(s, DropPublisher);
    forall j | j in s'.streams
      ensures StreamInv(s', j)
    {
      assert StreamInv(s, j);
    }
  }

  lemma {:induction false} WithoutKeepsOthers(ids: seq<StreamId>, id: StreamId, j: StreamId)
    ensures j in Without(ids, id) <==> j in ids && j != id
  {
    if ids != [] {
      WithoutKeepsOthers(ids[1..], id, j);
    }
  }

  /** Locking, unlocking and finishing touch no stream. */
  lemma PhaseChangeKeepsStream(s: State, j: StreamId)
    requires Inv(s) && PublisherBusy(s) && j in s.streams
    requires s.publisher.MustWake? || (s.publisher.Collecting? && s.publisher.pending == [])
      || (s.publisher.Waking? && s.publisher.wake == [])
    ensures j in WakeStep(s).streams && StreamInv(WakeStep(s), j)
  {
    assert StreamInv(s, j);
    hide Inv, StrictlyIncreasing;
  }

  /** The wake-up phase may take a waker or mark a task woken; cursors and lifetimes do not notice. */
  lemma WakingKeepsCursor(s: State, s': State, st: Stream, st': Stream)
    requires CursorInv(s, st) && LifetimeInv(s, st) && st' == st.(waker := st'.waker, woken := st'.woken)
    requires s'.current == s.current && s'.alive == s.alive && s'.published == s.published
    ensures CursorInv(s', st') && LifetimeInv(s', st')
  {
    hide StrictlyIncreasing;
  }

  lemma CollectKeepsWake(s: State, j: StreamId)
    requires j in s.streams && WakeInv(s, j) && s.publisher.Collecting? && s.publisher.pending != []
    ensures j in CollectOne(s).streams && WakeInv(CollectOne(s), j)
  {
    var pending, wake, wake' := s.publisher.pending, s.publisher.wake, CollectOne(s).publisher.wake;
    assert pending == [pending[0]] + pending[1..];
    assert wake <= wake';
    var task := s.streams[j].task;
    assert task in wake ==> task in wake';
    if j == pending[0] && s.streams[j].waker == Some(task) {
      assert wake'[|wake'| - 1] == task;
    }
  }

  lemma CollectKeepsStream(s: State, j: StreamId)
    requires Inv(s) && j in s.streams && s.publisher.Collecting? && s.publisher.pending != []
    ensures j in CollectOne(s).streams && StreamInv(CollectOne(s), j)
  {
    assert StreamInv(s, j);
    hide Inv, CursorInv, LifetimeInv, WakeInv;
    WithoutKeepsOthers(s.waiters, s.publisher.pending[0], j);
    CollectKeepsWake(s, j);
    WakingKeepsCursor(s, CollectOne(s), s.streams[j], CollectOne(s).streams[j]);
  }

  lemma WakeKeepsWake(s: State, j: StreamId)
    requires j in s.streams && WakeInv(s, j) && s.publisher.Waking? && s.publisher.wake != []
    ensures WakeInv(WakeStep(s), j)
  {
    var wake, task := s.publisher.wake, s.streams[j].task;
    assert wake == [wake[0]] + wake[1..];
    assert task in wake <==> task == wake[0] || task in wake[1..];
  }

  lemma WakeKeepsStream(s: State, j: StreamId)
    requires Inv(s) && j in s.streams && s.publisher.Waking? && s.publisher.wake != []
    ensures j in WakeStep(s).streams && StreamInv(WakeStep(s), j)
  {
    assert StreamInv(s, j);
    hide Inv, CursorInv, LifetimeInv, WakeInv;
    WakeKeepsWake(s, j);
    WakingKeepsCursor(s, WakeStep(s), s.streams[j], WakeStep(s).streams[j]);
  }

  lemma WakeStepKeepsStream(s: State, j: StreamId)
    requires Inv(s) && PublisherBusy(s) && j in s.streams
    ensures j in WakeStep(s).streams && StreamInv(WakeStep(s), j)
  {
    hide Inv, StreamInv;
    if s.publisher.Collecting? && s.publisher.pending != [] {
      CollectKeepsStream(s, j);
    } else if s.publisher.Waking? && s.publisher.wake != [] {
      WakeKeepsStream(s, j);
    } else {
      PhaseChangeKeepsStream(s, j);
    }
  }

  lemma WakeStepKeepsInv(s: State)
    requires Inv(s) && PublisherBusy(s)
    ensures Inv(WakeStep(s))
  {
    forall j | j in WakeStep(s).streams
      ensures StreamInv(WakeStep(s), j)
    {
      assert j in s.streams;
      WakeStepKeepsStream(s, j);
    }
  }

  lemma StepKeepsInv(s: State, step: Step)
    requires Inv(s) && Enabled(s, step)
    ensures Inv(Apply(s, step))
  {
    hide Inv;
    match step
    case Create(id, onlyChanges) => CreateKeepsInv(s, id, onlyChanges);
    case Attach(id) => AttachKeepsInv(s, id);
    case PollStart(id, task) => PollStartKeepsInv(s, id, task);
    case PollNext(id) => PollNextKeepsInv(s, id);
    case DropStream(id) => DropStreamKeepsInv(s, id);
    case Store(revision) => StoreKeepsInv(s, revision);
    case DropPublisher => DropPublisherKeepsInv(s);
    case PublisherNext => WakeStepKeepsInv(s);
  }

  lemma {:induction false} RunKeepsInv(states: seq<State>, steps: seq<Step>, n: nat)
    requires IsRun(states, steps) && n < |states|
    ensures Inv(states[n])
  {
    hide Inv, Apply;
    if n == 0 {
      var revision: Revision :| states[0] == Init(revision);
      InitInv(revision);
    } else {
      RunKeepsInv(states, steps, n - 1);
      StepKeepsInv(states[n - 1], steps[n - 1]);
    }
  }
}
