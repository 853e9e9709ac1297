/** What a poll answers and what a publication does, told without the steps in between. */
module SnapshotReports {
  import opened Core
  import opened SnapshotChannel
  import opened SnapshotLaws

  // ----- the answer of a poll

  /** An answer that carries a snapshot is the latest yield, and the cursor stands on it. */
  ghost predicate AnswersLatestYield(st: Stream) {
    st.outcome.Item? ==>
      st.yielded != [] && st.yielded[|st.yielded| - 1] == st.outcome.revision
      && st.lastSeen == Some(st.outcome.revision)
  }

  lemma StartKeepsAnswers(s: State, st: Stream, task: Task)
    requires AnswersLatestYield(st)
    ensures AnswersLatestYield(StartPoll(s, st, task))
  {
  }

  lemma NextKeepsAnswers(s: State, st: Stream)
    requires AnswersLatestYield(st) && st.pc != Unattached && st.pc != Resting
    ensures AnswersLatestYield(ContinuePoll(s, st))
  {
  }

  lemma StepKeepsAnswers(s: State, step: Step, id: StreamId)
    requires Enabled(s, step) && id in Apply(s, step).streams
    requires id in s.streams ==> AnswersLatestYield(s.streams[id])
    ensures AnswersLatestYield(Apply(s, step).streams[id])
  {
    if id in s.streams && !Concerns(step, id) {
      OthersLeavePollAlone(s, step, id);
    } else {
      hide StartPoll, ContinuePoll, WakeStep;
      if step.PollStart? {
        StartKeepsAnswers(s, s.streams[id], step.task);
      } else if step.PollNext? {
        NextKeepsAnswers(s, s.streams[id]);
      } else {
        assert id in s.streams || (step.Create? && step.id == id) by {
          if id !in s.streams {
            KnownBefore(s, step, id);
          }
        }
      }
    }
  }

  /** Only creation brings a stream about. */
  lemma KnownBefore(s: State, step: Step, id: StreamId)
    requires Enabled(s, step) && id in Apply(s, step).streams && id !in s.streams
    ensures step.Create? && step.id == id
  {
  }

  lemma {:induction false} AnswerIsLatestYield(states: seq<State>, steps: seq<Step>, n: nat, id: StreamId)
    requires IsRun(states, steps) && n < |states| && id in states[n].streams
    ensures AnswersLatestYield(states[n].streams[id])
    decreases n
  {
    hide Inv, Apply, Enabled, AnswersLatestYield;
    if n > 0 {
      var s := states[n - 1];
      assert Enabled(s, steps[n - 1]) && states[n] == Apply(s, steps[n - 1]);
      if id in s.streams {
        AnswerIsLatestYield(states, steps, n - 1, id);
      }
      StepKeepsAnswers(s, steps[n - 1], id);
    }
  }

  /** The first load answers on the spot when it finds something new, with what it found; otherwise not at all. */
  lemma FirstLoadAnswers(s: State, id: StreamId, task: Task)
    requires Enabled(s, PollStart(id, task)) && !s.streams[id].terminated
    ensures var st, st' := s.streams[id], Apply(s, PollStart(id, task)).streams[id];
      if st.lastSeen.None? || st.lastSeen.value < s.current then
        && st'.pc == Resting && st'.outcome == Item(s.current) && st'.lastSeen == Some(s.current)
        && st'.yielded == st.yielded + [s.current]
      else
        st'.pc == CheckAlive && st'.outcome == st.outcome && st'.lastSeen == st.lastSeen && st'.yielded == st.yielded
  {
  }

  predicate Concerns(step: Step, id: StreamId) {
    match step
    case Create(j, _) => j == id
    case Attach(j) => j == id
    case PollStart(j, _) => j == id
    case PollNext(j) => j == id
    case DropStream(j) => j == id
    case _ => false
  }

  lemma OthersLeavePollAlone(s: State, step: Step, id: StreamId)
    requires Enabled(s, step) && id in s.streams && !Concerns(step, id)
    ensures id in Apply(s, step).streams
    ensures var st, st' := s.streams[id], Apply(s, step).streams[id];
      && st'.pc == st.pc && st'.outcome == st.outcome && st'.lastSeen == st.lastSeen && st'.yielded == st.yielded
      && st'.terminated == st.terminated && st'.task == st.task
  {
  }

  /** While a stream takes no step of its own, nothing moves its poll. */
  lemma {:induction false} PollWaits(states: seq<State>, steps: seq<Step>, from: nat, n: nat, id: StreamId)
    requires IsRun(states, steps) && from <= n <= |steps| && id in states[from].streams
    requires forall i :: from <= i < n ==> !Concerns(steps[i], id)
    ensures id in states[n].streams
    ensures var st, st' := states[from].streams[id], states[n].streams[id];
      && st'.pc == st.pc && st'.outcome == st.outcome && st'.lastSeen == st.lastSeen && st'.yielded == st.yielded
      && st'.terminated == st.terminated && st'.task == st.task
    decreases n
  {
    hide Apply, Enabled;
    if from < n {
      PollWaits(states, steps, from, n - 1, id);
      assert Enabled(states[n - 1], steps[n - 1]) && states[n] == Apply(states[n - 1], steps[n - 1]);
      OthersLeavePollAlone(states[n - 1], steps[n - 1], id);
    }
  }

  /**
   * The second load, made once the waker is registered, answers when it finds something new: with what was current
   * at that load, however much is published before the answer is returned, and leaving no waker behind.
   */
  lemma SecondLoadAnswers(states: seq<State>, steps: seq<Step>, load: nat, n: nat, id: StreamId)
    requires IsRun(states, steps) && load < n < |steps| && steps[load] == PollNext(id) && steps[n] == PollNext(id)
    requires id in states[load].streams && states[load].streams[id].pc == Recheck
    requires forall i :: load < i < n ==> !Concerns(steps[i], id)
    requires states[load].streams[id].lastSeen.Some?
    requires states[load].streams[id].lastSeen.value < states[load].current
    ensures id in states[n + 1].streams
    ensures var st, st' := states[load].streams[id], states[n + 1].streams[id];
      && st'.pc == Resting && st'.outcome == Item(states[load].current) && st'.waker == None
      && st'.lastSeen == Some(states[load].current) && st'.yielded == st.yielded + [states[load].current]
  {
    assert Enabled(states[load], steps[load]) && states[load + 1] == Apply(states[load], steps[load]);
    PollWaits(states, steps, load + 1, n, id);
    assert Enabled(states[n], steps[n]) && states[n + 1] == Apply(states[n], steps[n]);
  }

  /** A publisher found gone after the second load ends the stream, and leaves no waker behind either. */
  lemma SecondCheckEnds(states: seq<State>, steps: seq<Step>, check: nat, n: nat, id: StreamId)
    requires IsRun(states, steps) && check < n < |steps| && steps[check] == PollNext(id) && steps[n] == PollNext(id)
    requires id in states[check].streams && states[check].streams[id].pc == RecheckAlive && !states[check].alive
    requires forall i :: check < i < n ==> !Concerns(steps[i], id)
    ensures id in states[n + 1].streams
    ensures var st, st' := states[check].streams[id], states[n + 1].streams[id];
      && st'.pc == Resting && st'.outcome == End && st'.terminated && st'.waker == None
      && st'.lastSeen == st.lastSeen && st'.yielded == st.yielded
  {
    assert Enabled(states[check], steps[check]) && states[check + 1] == Apply(states[check], steps[check]);
    PollWaits(states, steps, check + 1, n, id);
    assert Enabled(states[n], steps[n]) && states[n + 1] == Apply(states[n], steps[n]);
  }

  // ----- a poll that nothing interrupts

  function Rank(pc: PollPc): nat {
    match pc
    case CheckAlive => 4
    case Register => 3
    case Recheck => 2
    case RecheckAlive => 1
    case ClearThenYield(_) => 1
    case ClearThenEnd => 0
    case _ => 0
  }

  /** The poll runs on alone until it answers. */
  function FinishPoll(s: State, id: StreamId): State
    requires id in s.streams
    decreases if id in s.streams then Rank(s.streams[id].pc) else 0, if s.streams[id].pc == Resting then 0 else 1
  {
    if s.streams[id].pc == Unattached || s.streams[id].pc == Resting then s
    else FinishPoll(Apply(s, PollNext(id)), id)
  }

  /** What one whole poll answers and leaves in its stream. */
  function Polled(s: State, st: Stream, task: Task): Stream {
    if st.terminated then st.(outcome := End)
    else
      var begun := st.(task := task, woken := false, storedSinceLoad := false, startedAlive := s.alive);
      if st.lastSeen == None || st.lastSeen.value < s.current then
        begun.(outcome := Item(s.current), lastSeen := Some(s.current), yielded := st.yielded + [s.current])
      else if !s.alive then begun.(outcome := End, terminated := true)
      else begun.(outcome := Pending, waker := Some(task))
  }

  /**
   * A poll that nothing interrupts: ended for good, else the newest snapshot if it has not been seen, else the end
   * if the publisher is gone, else pending with this task's waker in place. Nothing else changes.
   */
  lemma UninterruptedPoll(s: State, id: StreamId, task: Task)
    requires id in s.streams && s.streams[id].pc == Resting
    ensures Enabled(s, PollStart(id, task)) && id in Apply(s, PollStart(id, task)).streams
    ensures FinishPoll(Apply(s, PollStart(id, task)), id) ==
      s.(streams := s.streams[id := Polled(s, s.streams[id], task)])
  {
    var begun := Apply(s, PollStart(id, task));
    var st := s.streams[id];
    if !st.terminated && st.lastSeen.Some? && st.lastSeen.value >= s.current {
      var checked := Apply(begun, PollNext(id));
      assert FinishPoll(begun, id) == FinishPoll(checked, id);
      if s.alive {
        var registered := Apply(checked, PollNext(id));
        var rechecked := Apply(registered, PollNext(id));
        var answered := Apply(rechecked, PollNext(id));
        assert FinishPoll(checked, id) == FinishPoll(registered, id) == FinishPoll(rechecked, id);
        assert FinishPoll(rechecked, id) == FinishPoll(answered, id) == answered;
        assert answered.streams[id] == Polled(s, st, task);
      } else {
        assert checked.streams[id] == Polled(s, st, task);
      }
    } else {
      assert begun.streams[id] == Polled(s, st, task);
    }
  }

  // ----- where a stream starts

  /** A stream of changes has only yielded, and only stands on, revisions newer than the one at its creation. */
  ghost predicate Newer(st: Stream, base: Revision) {
    st.lastSeen.Some? && base <= st.lastSeen.value && forall r :: r in st.yielded ==> base < r
  }

  lemma StartKeepsNewer(s: State, st: Stream, task: Task, base: Revision)
    requires Newer(st, base)
    ensures Newer(StartPoll(s, st, task), base)
  {
  }

  lemma NextKeepsNewer(s: State, st: Stream, base: Revision)
    requires Newer(st, base) && st.pc != Unattached && st.pc != Resting
    requires st.pc.ClearThenYield? ==> st.lastSeen.Some? && st.lastSeen.value < st.pc.revision
    ensures Newer(ContinuePoll(s, st), base)
  {
  }

  lemma StepKeepsNewer(s: State, step: Step, id: StreamId, base: Revision)
    requires Inv(s) && Enabled(s, step) && id in s.streams && !Replaces(step, id) && Newer(s.streams[id], base)
    ensures id in Apply(s, step).streams && Newer(Apply(s, step).streams[id], base)
  {
    if !Concerns(step, id) {
      OthersLeavePollAlone(s, step, id);
    } else {
      assert CursorInv(s, s.streams[id]) by {
        assert StreamInv(s, id);
      }
      hide Inv, StartPoll, ContinuePoll, StrictlyIncreasing;
      if step.PollStart? {
        StartKeepsNewer(s, s.streams[id], step.task, base);
      } else if step.PollNext? {
        NextKeepsNewer(s, s.streams[id], base);
      }
    }
  }

  /** A subscriber to changes never receives the revision current when it subscribed, nor an earlier one. */
  lemma {:induction false} ChangesAreNewer(states: seq<State>, steps: seq<Step>, made: nat, n: nat, id: StreamId)
    requires IsRun(states, steps) && made < n <= |steps| && steps[made] == Create(id, true)
    requires forall i :: made < i < n ==> !Replaces(steps[i], id)
    ensures id in states[n].streams && Newer(states[n].streams[id], states[made].current)
    ensures forall r :: r in states[n].streams[id].yielded ==> r > states[made].current
    decreases n
  {
    hide Inv, Apply, Enabled, Newer;
    var s, step := states[n - 1], steps[n - 1];
    assert Enabled(s, step) && states[n] == Apply(s, step);
    if made < n - 1 {
      ChangesAreNewer(states, steps, made, n - 1, id);
      RunKeepsInv(states, steps, n - 1);
      StepKeepsNewer(s, step, id, states[made].current);
    } else {
      CreatedForChanges(s, id);
    }
    NewerYields(states[n].streams[id], states[made].current);
  }

  lemma NewerYields(st: Stream, base: Revision)
    requires Newer(st, base)
    ensures forall r :: r in st.yielded ==> r > base
  {
  }

  lemma CreatedForChanges(s: State, id: StreamId)
    requires Enabled(s, Create(id, true))
    ensures id in Apply(s, Create(id, true)).streams && Newer(Apply(s, Create(id, true)).streams[id], s.current)
  {
  }

  /** A full subscriber has seen nothing before its first poll, so that poll answers with the current snapshot. */
  lemma FirstPollAnswersCurrent(
      states: seq<State>, steps: seq<Step>, made: nat, attached: nat, n: nat, id: StreamId)
    requires IsRun(states, steps) && made < attached < n < |steps|
    requires steps[made] == Create(id, false) && steps[attached] == Attach(id) && steps[n].PollStart?
      && steps[n].id == id
    requires forall i :: made < i < n && i != attached ==> !Concerns(steps[i], id)
    ensures id in states[n + 1].streams
    ensures var st := states[n + 1].streams[id];
      st.outcome == Item(states[n].current) && st.yielded == [states[n].current] && st.pc == Resting
  {
    assert Enabled(states[made], steps[made]) && states[made + 1] == Apply(states[made], steps[made]);
    PollWaits(states, steps, made + 1, attached, id);
    assert Enabled(states[attached], steps[attached])
      && states[attached + 1] == Apply(states[attached], steps[attached]);
    PollWaits(states, steps, attached + 1, n, id);
    assert Enabled(states[n], steps[n]) && states[n + 1] == Apply(states[n], steps[n]);
    hide IsRun, Enabled;
    var none: seq<Revision> := [];
    assert none + [states[n].current] == [states[n].current];
  }

  /** Subscribing is always possible under a new name; the newcomer is resting and listed, and leaving forgets it. */
  lemma SubscribeThenLeave(s: State, id: StreamId, onlyChanges: bool)
    requires id !in s.streams && id !in s.waiters && !s.publisher.Collecting?
    ensures Enabled(s, Create(id, onlyChanges))
    ensures var made := Apply(s, Create(id, onlyChanges));
      && Enabled(made, DropStream(id)) && Apply(made, DropStream(id)) == s
      && Enabled(made, Attach(id))
      && var joined := Apply(made, Attach(id));
         && joined.waiters == s.waiters + [id] && id in joined.streams && joined.streams - {id} == s.streams
         && joined.streams[id].pc == Resting && joined.streams[id].waker == None && !joined.streams[id].terminated
         && joined.streams[id].lastSeen == (if onlyChanges then Some(s.current) else None)
         && Enabled(joined, DropStream(id)) && Apply(joined, DropStream(id)) == s.(waiters := s.waiters + [id])
  {
    var made := Apply(s, Create(id, onlyChanges));
    assert made.streams - {id} == s.streams;
    var joined := Apply(made, Attach(id));
    assert joined.streams - {id} == s.streams;
  }

  // ----- a publication whose wake-up runs to its end

  /** Some of these streams has this task's waker registered. */
  ghost predicate Waits(s: State, ids: seq<StreamId>, task: Task) {
    exists j :: j in ids && j in s.streams && s.streams[j].waker == Some(task)
  }

  /** A stream whose waker is perhaps taken and whose task is perhaps woken, and otherwise as before. */
  predicate Settled(st: Stream, after: Stream, taken: bool, woken: bool) {
    after == st.(waker := if taken then None else st.waker, woken := st.woken || woken)
  }

  /** The wakers of `ids` are taken and their tasks, with those in `wake`, woken; everything else is as it was. */
  ghost predicate Woken(s: State, done: State, ids: seq<StreamId>, wake: seq<Task>) {
    && done.current == s.current && done.alive == s.alive && done.published == s.published
    && done.streams.Keys == s.streams.Keys
    && (forall id :: id in s.streams ==>
          var task := s.streams[id].task;
          Settled(s.streams[id], done.streams[id], id in ids, task in wake || Waits(s, ids, task)))
    && (forall id :: id in done.waiters <==> id in s.waiters && (id in s.streams || id !in ids))
  }

  lemma {:induction false} FinishFromWaking(s: State)
    requires s.publisher.Waking?
    ensures Woken(s, FinishWaking(s), [], s.publisher.wake)
    ensures FinishWaking(s).publisher == if s.publisher.dropping then Gone else Idle
    decreases |s.publisher.wake|
  {
    var wake := s.publisher.wake;
    if wake != [] {
      FinishFromWaking(WakeStep(s));
      assert FinishWaking(s) == FinishWaking(WakeStep(s));
      WakeOneMore(s, FinishWaking(s));
    } else {
      assert FinishWaking(s) == WakeStep(s);
    }
  }

  lemma WakeOneMore(s: State, done: State)
    requires s.publisher.Waking? && s.publisher.wake != []
    requires Woken(WakeStep(s), done, [], s.publisher.wake[1..])
    ensures Woken(s, done, [], s.publisher.wake)
  {
    var wake := s.publisher.wake;
    assert wake == [wake[0]] + wake[1..];
    forall id | id in s.streams
      ensures id in done.streams
      ensures Settled(s.streams[id], done.streams[id], false,
                      s.streams[id].task in wake || Waits(s, [], s.streams[id].task))
    {
      assert s.streams[id].task in wake <==> s.streams[id].task == wake[0] || s.streams[id].task in wake[1..];
    }
  }

  lemma {:induction false} FinishFromCollecting(s: State)
    requires s.publisher.Collecting?
    ensures Woken(s, FinishWaking(s), s.publisher.pending, s.publisher.wake)
    ensures FinishWaking(s).publisher == if s.publisher.dropping then Gone else Idle
    decreases |s.publisher.pending|
  {
    var next := WakeStep(s);
    assert FinishWaking(s) == FinishWaking(next);
    hide FinishWaking;
    if s.publisher.pending == [] {
      FinishFromWaking(next);
      NothingPending(s, FinishWaking(s));
    } else {
      hide Woken;
      FinishFromCollecting(next);
      CollectOneMore(s, FinishWaking(s));
    }
  }

  lemma NothingPending(s: State, done: State)
    requires s.publisher.Collecting? && s.publisher.pending == []
    requires Woken(WakeStep(s), done, [], WakeStep(s).publisher.wake)
    ensures Woken(s, done, [], s.publisher.wake)
  {
  }

  lemma CollectOneMore(s: State, done: State)
    requires s.publisher.Collecting? && s.publisher.pending != []
    requires Woken(CollectOne(s), done, CollectOne(s).publisher.pending, CollectOne(s).publisher.wake)
    ensures Woken(s, done, s.publisher.pending, s.publisher.wake)
  {
    hide Waits;
    forall id | id in s.streams
      ensures var pending, task := s.publisher.pending, s.streams[id].task;
        && id in done.streams
        && Settled(s.streams[id], done.streams[id], id in pending,
                   task in s.publisher.wake || Waits(s, pending, task))
    {
      CollectedStream(s, done, id);
    }
    forall id
      ensures id in done.waiters <==> id in s.waiters && (id in s.streams || id !in s.publisher.pending)
    {
      CollectedWaiter(s, done, id);
    }
  }

  lemma CollectedStream(s: State, done: State, id: StreamId)
    requires s.publisher.Collecting? && s.publisher.pending != [] && id in s.streams
    requires Woken(CollectOne(s), done, CollectOne(s).publisher.pending, CollectOne(s).publisher.wake)
    ensures id in done.streams
    ensures var pending, task := s.publisher.pending, s.streams[id].task;
      Settled(s.streams[id], done.streams[id], id in pending, task in s.publisher.wake || Waits(s, pending, task))
  {
    hide Waits, Settled;
    var pending, task, next := s.publisher.pending, s.streams[id].task, CollectOne(s);
    CollectedOrWaiting(s, task);
    assert pending == [pending[0]] + pending[1..];
    assert id in pending <==> id == pending[0] || id in pending[1..];
    assert next.streams[id] == if id == pending[0] then s.streams[id].(waker := None) else s.streams[id];
    TakenOnce(s.streams[id], done.streams[id], id == pending[0], id in pending[1..],
              task in next.publisher.wake || Waits(next, pending[1..], task));
  }

  lemma TakenOnce(st: Stream, after: Stream, now: bool, later: bool, woken: bool)
    requires Settled(if now then st.(waker := None) else st, after, later, woken)
    ensures Settled(st, after, now || later, woken)
  {
  }

  lemma CollectedWaiter(s: State, done: State, id: StreamId)
    requires s.publisher.Collecting? && s.publisher.pending != []
    requires Woken(CollectOne(s), done, CollectOne(s).publisher.pending, CollectOne(s).publisher.wake)
    ensures id in done.waiters <==> id in s.waiters && (id in s.streams || id !in s.publisher.pending)
  {
    hide Waits;
    var pending := s.publisher.pending;
    assert pending == [pending[0]] + pending[1..];
    assert id in pending <==> id == pending[0] || id in pending[1..];
    WithoutKeepsOthers(s.waiters, pending[0], id);
  }

  lemma CollectedOrWaiting(s: State, task: Task)
    requires s.publisher.Collecting? && s.publisher.pending != []
    ensures var next := CollectOne(s);
      task in s.publisher.wake || Waits(s, s.publisher.pending, task) <==>
      task in next.publisher.wake || Waits(next, next.publisher.pending, task)
  {
    var pending := s.publisher.pending;
    var first, rest, next := pending[0], pending[1..], CollectOne(s);
    assert pending == [first] + rest;
    if j :| j in pending && j in s.streams && s.streams[j].waker == Some(task) {
      if j != first {
        assert j in rest && next.streams[j] == s.streams[j];
      } else {
        assert next.publisher.wake[|next.publisher.wake| - 1] == task;
      }
    }
    if j :| j in rest && j in next.streams && next.streams[j].waker == Some(task) {
      assert j in pending && s.streams[j].waker == Some(task);
    }
    assert task in next.publisher.wake <==>
      task in s.publisher.wake || (first in s.streams && s.streams[first].waker == Some(task));
  }

  /** What the wake-up following a change comes to, run to its end. */
  lemma WakeUpRunsOut(s: State)
    requires s.publisher.MustWake?
    ensures Woken(s, FinishWaking(s), s.waiters, [])
    ensures FinishWaking(s).publisher == if s.publisher.dropping then Gone else Idle
  {
    var next := WakeStep(s);
    assert FinishWaking(s) == FinishWaking(next);
    hide FinishWaking;
    FinishFromCollecting(next);
    forall task: Task
      ensures Waits(s, s.waiters, task) <==> Waits(next, s.waiters, task)
    {
    }
    hide Waits;
  }

  /**
   * A newer snapshot can always be published. Publishing makes it current and wakes exactly the tasks whose wakers
   * subscribers had left, taking those wakers and forgetting subscribers that are gone. No cursor moves.
   */
  lemma UninterruptedPublish(s: State, revision: Revision)
    requires s.publisher == Idle
    ensures Enabled(s, Store(revision)) <==> revision > s.current
    ensures revision > s.current ==>
      var stored := s.(current := revision, published := s.published + [revision], publisher := Idle,
                       streams := map id | id in s.streams :: s.streams[id].(storedSinceLoad := true));
      var done := FinishWaking(Apply(s, Store(revision)));
      Woken(stored, done, s.waiters, []) && done.publisher == Idle
  {
    if revision > s.current {
      var after := Apply(s, Store(revision));
      WakeUpRunsOut(after);
      hide FinishWaking;
      assert after == after.(publisher := MustWake(false));
      WokenIgnoresPublisher(after, after.(publisher := Idle), FinishWaking(after), s.waiters);
    }
  }

  /** Dropping the publisher says so and wakes the same tasks. */
  lemma UninterruptedDrop(s: State)
    requires s.publisher == Idle
    ensures Enabled(s, DropPublisher)
    ensures var done := FinishWaking(Apply(s, DropPublisher));
      Woken(s.(alive := false), done, s.waiters, []) && done.publisher == Gone
  {
    var after := Apply(s, DropPublisher);
    WakeUpRunsOut(after);
    hide FinishWaking;
    WokenIgnoresPublisher(after, s.(alive := false), FinishWaking(after), s.waiters);
  }

  lemma WokenIgnoresPublisher(s: State, t: State, done: State, ids: seq<StreamId>)
    requires Woken(s, done, ids, []) && t == s.(publisher := t.publisher)
    ensures Woken(t, done, ids, [])
  {
    forall task: Task
      ensures Waits(s, ids, task) <==> Waits(t, ids, task)
    {
    }
    hide Waits;
  }
}
