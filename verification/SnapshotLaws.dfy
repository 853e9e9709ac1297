/** What a subscriber may rely on, in every interleaving of any number of subscribers. */
module SnapshotLaws {
  import opened Core
  import opened SnapshotChannel

  /** A parked stream has missed nothing, or was woken since it polled, or the publisher is about to wake it. */
  lemma NoLostWakeup(states: seq<State>, steps: seq<Step>, n: nat, id: StreamId)
    requires IsRun(states, steps) && n < |states| && id in states[n].streams
    requires states[n].streams[id].pc == Resting && states[n].streams[id].outcome == Pending
    ensures var s, st := states[n], states[n].streams[id];
      || (st.lastSeen == Some(s.current) && s.alive)
      || st.woken
      || (PublisherBusy(s) && PublisherWillWake(s, id))
  {
    RunKeepsInv(states, steps, n);
    assert StreamInv(states[n], id);
  }

  /** Once no wake-up is under way, a parked stream that missed anything has been woken. */
  lemma QuietPublisherOwesNoWake(states: seq<State>, steps: seq<Step>, n: nat, id: StreamId)
    requires IsRun(states, steps) && n < |states| && id in states[n].streams
    requires states[n].streams[id].pc == Resting && states[n].streams[id].outcome == Pending
    requires !PublisherBusy(states[n])
    ensures var s, st := states[n], states[n].streams[id];
      (st.lastSeen == Some(s.current) && s.alive) || st.woken
  {
    NoLostWakeup(states, steps, n, id);
  }

  /** Yields strictly increase and are published revisions; the cursor never runs ahead. */
  lemma YieldsIncrease(states: seq<State>, steps: seq<Step>, n: nat, id: StreamId)
    requires IsRun(states, steps) && n < |states| && id in states[n].streams
    ensures var s, st := states[n], states[n].streams[id];
      && StrictlyIncreasing(st.yielded)
      && (forall r :: r in st.yielded ==> r in s.published && r <= s.current)
      && (st.yielded != [] ==> st.lastSeen == Some(st.yielded[|st.yielded| - 1]))
  {
    RunKeepsInv(states, steps, n);
    var s := states[n];
    assert StreamInv(s, id);
    forall r | r in s.streams[id].yielded
      ensures r in s.published && r <= s.current
    {
      var i :| 0 <= i < |s.published| && s.published[i] == r;
    }
  }

  // ----- the publisher's own work terminates and delivers every wake it owes

  function Phase(p: Publisher): nat {
    match p
    case MustWake(_) => 3
    case Collecting(_, _, _) => 2
    case Waking(_, _) => 1
    case _ => 0
  }

  function Remaining(p: Publisher): nat {
    match p
    case Collecting(_, pending, _) => |pending|
    case Waking(_, wake) => |wake|
    case _ => 0
  }

  /** The publisher runs on alone until its wake-up is finished. */
  function FinishWaking(s: State): State
    decreases Phase(s.publisher), Remaining(s.publisher)
  {
    if PublisherBusy(s) then FinishWaking(WakeStep(s)) else s
  }

  lemma CollectKeepsPromise(s: State, id: StreamId)
    requires s.publisher.Collecting? && s.publisher.pending != [] && id in s.streams && PublisherWillWake(s, id)
    ensures PublisherWillWake(CollectOne(s), id)
  {
    var p, task := s.publisher, s.streams[id].task;
    var wake' := CollectOne(s).publisher.wake;
    assert p.pending == [p.pending[0]] + p.pending[1..];
    assert p.wake <= wake';
    assert task in p.wake ==> task in wake';
    if id == p.pending[0] && s.streams[id].waker == Some(task) {
      assert wake'[|wake'| - 1] == task;
    }
  }

  lemma WakeStepKeepsPromise(s: State, id: StreamId)
    requires PublisherBusy(s) && id in s.streams && id in s.waiters
    requires s.streams[id].woken || PublisherWillWake(s, id)
    ensures id in WakeStep(s).streams && WakeStep(s).streams[id].pc == s.streams[id].pc
    ensures WakeStep(s).streams[id].woken || PublisherWillWake(WakeStep(s), id)
  {
    var p := s.publisher;
    if p.Collecting? && p.pending != [] {
      if !s.streams[id].woken {
        CollectKeepsPromise(s, id);
      }
    } else if p.Waking? && p.wake != [] {
      assert p.wake == [p.wake[0]] + p.wake[1..];
    }
  }

  /** Whoever the publisher will wake is awake by the time it is done. */
  lemma {:induction false} PublisherWakesWhomItOwes(s: State, id: StreamId)
    requires Inv(s) && id in s.streams && s.streams[id].pc != Unattached
    requires s.streams[id].woken || PublisherWillWake(s, id)
    ensures var done := FinishWaking(s); id in done.streams && done.streams[id].woken && !PublisherBusy(done)
    decreases Phase(s.publisher), Remaining(s.publisher)
  {
    if PublisherBusy(s) {
      WakeStepKeepsInv(s);
      assert StreamInv(s, id);
      WakeStepKeepsPromise(s, id);
      hide Inv;
      PublisherWakesWhomItOwes(WakeStep(s), id);
    }
  }

  // ----- how a stream ends

  /** The step performs one of this stream's loads of the current snapshot. */
  predicate Loads(s: State, step: Step, id: StreamId) {
    && id in s.streams
    && (match step
        case PollStart(j, _) => j == id && !s.streams[id].terminated
        case PollNext(j) => j == id && s.streams[id].pc == Recheck
        case _ => false)
  }

  predicate Replaces(step: Step, id: StreamId) {
    step == DropStream(id) || (step.Create? && step.id == id)
  }

  ghost predicate StoreBetween(steps: seq<Step>, from: nat, to: nat)
    requires to <= |steps|
  {
    exists i :: from < i < to && steps[i].Store?
  }

  lemma OtherStepsKeepMark(s: State, step: Step, id: StreamId)
    requires Enabled(s, step) && id in s.streams && !Loads(s, step, id) && !Replaces(step, id)
    ensures id in Apply(s, step).streams
    ensures Apply(s, step).streams[id].storedSinceLoad <==> s.streams[id].storedSinceLoad || step.Store?
  {
  }

  lemma LoadClearsMark(s: State, step: Step, id: StreamId)
    requires Enabled(s, step) && Loads(s, step, id)
    ensures id in Apply(s, step).streams && !Apply(s, step).streams[id].storedSinceLoad
  {
  }

  /** The recorded mark is what it says: a store happened after the latest load. */
  lemma {:induction false} MarkMeansStoreSinceLoad(
      states: seq<State>, steps: seq<Step>, load: nat, n: nat, id: StreamId)
    requires IsRun(states, steps) && load < n <= |steps| && Loads(states[load], steps[load], id)
    requires forall i :: load < i < n ==> !Loads(states[i], steps[i], id) && !Replaces(steps[i], id)
    ensures id in states[n].streams
    ensures states[n].streams[id].storedSinceLoad <==> StoreBetween(steps, load, n)
  {
    hide Apply, Enabled, Loads;
    var i := n - 1;
    assert Enabled(states[i], steps[i]) && states[i + 1] == Apply(states[i], steps[i]);
    if i == load {
      LoadClearsMark(states[i], steps[i], id);
    } else {
      MarkMeansStoreSinceLoad(states, steps, load, i, id);
      OtherStepsKeepMark(states[i], steps[i], id);
      if StoreBetween(steps, load, i) {
        var j :| load < j < i && steps[j].Store?;
        assert load < j < n && steps[j].Store?;
      }
    }
  }

  /** A stream ends having observed the latest snapshot exactly when nothing was stored since its last load. */
  lemma EndsUpToDateIff(states: seq<State>, steps: seq<Step>, load: nat, n: nat, id: StreamId)
    requires IsRun(states, steps) && load < n <= |steps| && Loads(states[load], steps[load], id)
    requires forall i :: load < i < n ==> !Loads(states[i], steps[i], id) && !Replaces(steps[i], id)
    requires id in states[n].streams && states[n].streams[id].terminated
    ensures states[n].streams[id].lastSeen == Some(states[n].current) <==> !StoreBetween(steps, load, n)
  {
    MarkMeansStoreSinceLoad(states, steps, load, n, id);
    RunKeepsInv(states, steps, n);
    assert StreamInv(states[n], id);
  }

  /** A poll that begins after the publisher is gone never ends the stream early. */
  lemma LatePollEndsUpToDate(states: seq<State>, steps: seq<Step>, n: nat, id: StreamId)
    requires IsRun(states, steps) && n < |states| && id in states[n].streams
    requires states[n].streams[id].terminated && !states[n].streams[id].startedAlive
    ensures states[n].streams[id].lastSeen == Some(states[n].current)
  {
    RunKeepsInv(states, steps, n);
    assert StreamInv(states[n], id);
  }

  /** An ended stream stays ended and what it skipped stays skipped. */
  lemma EndIsFinal(s: State, step: Step, id: StreamId)
    requires Inv(s) && Enabled(s, step) && id in s.streams && s.streams[id].terminated && !Replaces(step, id)
    ensures var s' := Apply(s, step);
      && id in s'.streams && s'.streams[id].terminated && s'.streams[id].outcome == End
      && s'.streams[id].lastSeen == s.streams[id].lastSeen && s'.current == s.current
  {
    assert StreamInv(s, id);
  }

  // ----- the interleaving that ends a stream early

  lemma Extend(states: seq<State>, steps: seq<Step>, step: Step, next: State)
    requires IsRun(states, steps) && Enabled(states[|steps|], step) && next == Apply(states[|steps|], step)
    ensures IsRun(states + [next], steps + [step])
  {
    hide Apply, Enabled;
    var states', steps' := states + [next], steps + [step];
    forall i | 0 <= i < |steps'|
      ensures Enabled(states'[i], steps'[i]) && states'[i + 1] == Apply(states'[i], steps'[i])
    {
      if i < |steps| {
        assert states'[i] == states[i] && states'[i + 1] == states[i + 1];
      }
    }
    assert states'[0] == states[0];
  }

  /** Subscriber 7 has yielded revision 0, and its next poll has just loaded it again. */
  const REPOLLING: Stream := Stream(Some(0), false, None, CheckAlive, Item(0), 1, false, [0], false, true)

  lemma SubscribeAndRepoll() returns (states: seq<State>, steps: seq<Step>)
    ensures IsRun(states, steps)
    ensures states[|steps|] == State(0, true, [7], Idle, map[7 := REPOLLING], [0])
  {
    var s0 := Init(0);
    states, steps := [s0], [];
    var created := NewStream(s0, false);
    var s1 := s0.(streams := map[7 := created]);
    assert Apply(s0, Create(7, false)) == s1;
    Extend(states, steps, Create(7, false), s1);
    states, steps := states + [s1], steps + [Create(7, false)];
    var s2 := s1.(streams := map[7 := created.(pc := Resting)], waiters := [7]);
    assert Apply(s1, Attach(7)) == s2;
    Extend(states, steps, Attach(7), s2);
    states, steps := states + [s2], steps + [Attach(7)];
    var yielded := REPOLLING.(pc := Resting);
    var s3 := s2.(streams := map[7 := yielded]);
    assert created.yielded + [0] == [0];
    assert StartPoll(s2, s2.streams[7], 1) == yielded;
    assert Apply(s2, PollStart(7, 1)) == s3;
    Extend(states, steps, PollStart(7, 1), s3);
    states, steps := states + [s3], steps + [PollStart(7, 1)];
    var s4 := s3.(streams := map[7 := REPOLLING]);
    assert Apply(s3, PollStart(7, 1)) == s4;
    Extend(states, steps, PollStart(7, 1), s4);
    states, steps := states + [s4], steps + [PollStart(7, 1)];
  }

  lemma PublishOne(states: seq<State>, steps: seq<Step>)
    returns (states': seq<State>, steps': seq<Step>)
    requires IsRun(states, steps) && states[|steps|] == State(0, true, [7], Idle, map[7 := REPOLLING], [0])
    ensures IsRun(states', steps')
    ensures states'[|steps'|] == State(1, true, [7], Collecting(false, [], []),
                                       map[7 := REPOLLING.(storedSinceLoad := true)], [0, 1])
  {
    var marked := map[7 := REPOLLING.(storedSinceLoad := true)];
    var s1 := State(1, true, [7], MustWake(false), marked, [0, 1]);
    assert NoteStore(map[7 := REPOLLING]) == marked;
    assert [0] + [1] == [0, 1];
    Extend(states, steps, Store(1), s1);
    states', steps' := states + [s1], steps + [Store(1)];
    var s2 := s1.(publisher := Collecting(false, [7], []));
    Extend(states', steps', PublisherNext, s2);
    states', steps' := states' + [s2], steps' + [PublisherNext];
    var s3 := s2.(publisher := Collecting(false, [], []));
    assert marked[7 := marked[7].(waker := None)] == marked;
    var none: seq<Task> := [];
    assert none + none == none && [7][1..] == none;
    Extend(states', steps', PublisherNext, s3);
    states', steps' := states' + [s3], steps' + [PublisherNext];
  }

  lemma FinishAndDrop(states: seq<State>, steps: seq<Step>, s: State)
    returns (states': seq<State>, steps': seq<Step>)
    requires IsRun(states, steps) && states[|steps|] == s
    requires s.alive && s.publisher == Collecting(false, [], [])
    ensures IsRun(states', steps')
    ensures states'[|steps'|] == s.(alive := false, publisher := MustWake(true))
  {
    var s1 := s.(publisher := Waking(false, []));
    Extend(states, steps, PublisherNext, s1);
    states', steps' := states + [s1], steps + [PublisherNext];
    var s2 := s1.(publisher := Idle);
    Extend(states', steps', PublisherNext, s2);
    states', steps' := states' + [s2], steps' + [PublisherNext];
    var s3 := s2.(alive := false, publisher := MustWake(true));
    Extend(states', steps', DropPublisher, s3);
    states', steps' := states' + [s3], steps' + [DropPublisher];
  }

  /** Publish-then-drop between the two loads of one poll ends the stream without its last revision. */
  lemma EndCanSkipLatest()
    ensures exists states: seq<State>, steps: seq<Step>, id: StreamId ::
      && IsRun(states, steps) && id in states[|steps|].streams
      && states[|steps|].streams[id].terminated
      && states[|steps|].streams[id].lastSeen != Some(states[|steps|].current)
  {
    var states, steps := SubscribeAndRepoll();
    states, steps := PublishOne(states, steps);
    states, steps := FinishAndDrop(states, steps, states[|steps|]);
    var s := states[|steps|];
    var s' := Apply(s, PollNext(7));
    Extend(states, steps, PollNext(7), s');
    states, steps := states + [s'], steps + [PollNext(7)];
    assert states[|steps|].streams[7].terminated;
  }
}
