/** The debounced saver (main.py:185-238). Callers, the sleeping runner and direct saves interleave;
    each method below is the code between two awaits. */
module DebouncedSave {
  import opened Bytes

  /** Where the one running schedule_save() waits: nowhere, in sleep(), for SAVE_LOCK, in the write. */
  datatype Phase = Idle | Sleeping | Locking | Writing

  datatype State = State(
    phase: Phase,
    pending: bool,
    dirtyAgain: bool,
    /** how often the data was changed; a snapshot is named by the version it holds */
    version: nat,
    snapshot: nat,
    saved: nat,
    /** the version at the latest call */
    asked: nat,
    /** snapshots the debounced runner has taken */
    snapshots: nat,
    /** the snapshot a save_state() by somebody else is writing, under the same lock */
    direct: Option<nat>)

  const START := State(Idle, false, false, 0, 0, 0, 0, 0, None)

  datatype Event =
    | Mutate
    | Call
    /** the runner's next step; `ok` says whether a write that ends here succeeded */
    | Advance(ok: bool)
    /** a save_state() by somebody else gets the lock and copies the data, and ends its write */
    | DirectBegin
    | DirectEnd(ok: bool)

  function Step(s: State, e: Event): State {
    match e
    case Mutate => s.(version := s.version + 1)
    case Call =>
      if s.pending then s.(dirtyAgain := true, asked := s.version)
      else s.(pending := true, dirtyAgain := false, phase := Sleeping, asked := s.version)
    case Advance(ok) =>
      (match s.phase
       case Idle => s
       case Sleeping => s.(phase := Locking)
       case Locking =>
         if s.direct.Some? then s
         else s.(phase := Writing, snapshot := s.version, snapshots := s.snapshots + 1)
       case Writing =>
         var saved := if ok then s.snapshot else s.saved;
         if s.dirtyAgain then s.(saved := saved, dirtyAgain := false, phase := Sleeping)
         else s.(saved := saved, pending := false, phase := Idle))
    case DirectBegin => if s.phase.Writing? || s.direct.Some? then s else s.(direct := Some(s.version))
    case DirectEnd(ok) =>
      if s.direct.None? then s else s.(direct := None, saved := if ok then s.direct.value else s.saved)
  }

  function Run(s: State, es: seq<Event>): State
    decreases |es|
  {
    if es == [] then s else Run(Step(s, es[0]), es[1..])
  }

  predicate Succeeds(es: seq<Event>) {
    forall i :: 0 <= i < |es| ==> (es[i].Advance? ==> es[i].ok) && (es[i].DirectEnd? ==> es[i].ok)
  }

  /** While writes succeed: the file is never newer than the data, an idle saver has saved what was
      asked for, and a running write either holds it or will be repeated. */
  predicate Inv(s: State) {
    && (s.pending <==> !s.phase.Idle?)
    && s.saved <= s.version && s.asked <= s.version && s.snapshot <= s.version
    && (s.phase.Idle? ==> s.asked <= s.saved)
    && (s.phase.Writing? ==> s.saved <= s.snapshot && (s.asked <= s.snapshot || s.dirtyAgain))
    && (s.direct.Some? ==> !s.phase.Writing? && s.saved <= s.direct.value <= s.version)
  }

  lemma {:induction false} RunKeeps(s: State, es: seq<Event>)
    requires Inv(s) && Succeeds(es)
    ensures Inv(Run(s, es))
    decreases |es|
  {
    if es == [] {
    } else {
      assert Inv(Step(s, es[0]));
      RunKeeps(Step(s, es[0]), es[1..]);
    }
  }

  /** What holds whether or not writes succeed. */
  predicate Sane(s: State) {
    && (s.pending <==> !s.phase.Idle?)
    && s.saved <= s.version && s.snapshot <= s.version
    && (s.phase.Writing? ==> s.saved <= s.snapshot)
    && (s.direct.Some? ==> !s.phase.Writing? && s.saved <= s.direct.value <= s.version)
  }

  /** Steps, and snapshots, the runner still takes if nobody calls any more. */
  function StepsLeft(s: State): nat {
    (match s.phase case Idle => 0 case Sleeping => 3 case Locking => 2 case Writing => 1)
    + if s.dirtyAgain && !s.phase.Idle? then 3 else 0
  }

  function SnapshotsLeft(s: State): nat {
    (match s.phase case Idle => 0 case Sleeping => 1 case Locking => 1 case Writing => 0)
    + if s.dirtyAgain && !s.phase.Idle? then 1 else 0
  }

  /** The runner takes a step: it is at work, and nobody else has the lock it wants. */
  predicate Moves(s: State, e: Event) {
    e.Advance? && !s.phase.Idle? && !(s.phase.Locking? && s.direct.Some?)
  }

  /** The steps the runner takes in a run. */
  function Turns(s: State, es: seq<Event>): nat
    decreases |es|
  {
    if es == [] then 0 else (if Moves(s, es[0]) then 1 else 0) + Turns(Step(s, es[0]), es[1..])
  }

  /** Without further calls the runner takes at most two more snapshots, and it has stopped after
      its remaining steps, whatever else happens in between and whether or not writes succeed. */
  lemma {:induction false} Quiesces(s: State, es: seq<Event>)
    requires Sane(s) && forall i :: 0 <= i < |es| ==> !es[i].Call?
    ensures SnapshotsLeft(s) <= 2 && StepsLeft(s) <= 6
    ensures Run(s, es).snapshots <= s.snapshots + SnapshotsLeft(s)
    ensures Turns(s, es) <= StepsLeft(s) && (Turns(s, es) == StepsLeft(s) <==> Run(s, es).phase == Idle)
    ensures Run(s, es).asked == s.asked
    decreases |es|
  {
    if es == [] {
    } else {
      Quiesces(Step(s, es[0]), es[1..]);
    }
  }

  lemma {:induction false} RunConcat(s: State, a: seq<Event>, b: seq<Event>)
    ensures Run(s, a + b) == Run(Run(s, a), b)
    decreases |a|
  {
    if a == [] {
      assert a + b == b;
    } else {
      assert (a + b)[1..] == a[1..] + b;
      RunConcat(Step(s, a[0]), a[1..], b);
    }
  }

  /** No call is lost: after any run, a call, and any further run in which the runner comes to rest,
      the file holds data at least as new as at that call. */
  lemma EveryCallIsSaved(before: seq<Event>, after: seq<Event>)
    requires Succeeds(before) && Succeeds(after)
    requires Run(START, before + [Call] + after).phase == Idle
    ensures Run(START, before).version <= Run(START, before + [Call] + after).saved
  {
    var s := Run(START, before);
    RunKeeps(START, before);
    RunConcat(START, before + [Call], after);
    RunConcat(START, before, [Call]);
    var called := Run(s, [Call]);
    assert called == Step(s, Call);
    RunKeeps(called, after);
    AskedGrows(called, after);
  }

  lemma {:induction false} AskedGrows(s: State, es: seq<Event>)
    requires Inv(s) && Succeeds(es)
    ensures s.asked <= Run(s, es).asked
    decreases |es|
  {
    if es == [] {
    } else {
      AskedGrows(Step(s, es[0]), es[1..]);
    }
  }

  /** And the runner does come to rest, after at most six steps of its own from the last call on. */
  lemma LastCallIsServed(before: seq<Event>, after: seq<Event>)
    requires Succeeds(before) && Succeeds(after) && (forall i :: 0 <= i < |after| ==> !after[i].Call?)
    requires
      var called := Step(Run(START, before), Call);
      Turns(called, after) == StepsLeft(called)
    ensures StepsLeft(Step(Run(START, before), Call)) <= 6
    ensures
      var end := Run(START, before + [Call] + after);
      && end.phase == Idle
      && Run(START, before).version <= end.saved
      && end.snapshots <= Run(START, before).snapshots + 2
  {
    var s := Run(START, before);
    RunKeeps(START, before);
    RunConcat(START, before + [Call], after);
    RunConcat(START, before, [Call]);
    assert Run(s, [Call]) == Step(s, Call);
    Quiesces(Step(s, Call), after);
    EveryCallIsSaved(before, after);
  }

  // ---------------------------------------------------------------- writes that fail

  /** A successful write of data at least as new as version v ends with this step. */
  predicate Lands(s: State, e: Event, v: nat) {
    match e
    case Advance(ok) => ok && s.phase.Writing? && v <= s.snapshot
    case DirectEnd(ok) => ok && s.direct.Some? && v <= s.direct.value
    case _ => false
  }

  predicate Landed(s: State, es: seq<Event>, v: nat)
    decreases |es|
  {
    es != [] && (Lands(s, es[0], v) || Landed(Step(s, es[0]), es[1..], v))
  }

  /** With writes that fail or not, in any interleaving: the file holds version v or newer if and only
      if it did from the start or some write of a snapshot that new succeeded. */
  lemma {:induction false} SavedExactlyWhenLanded(s: State, es: seq<Event>, v: nat)
    requires Sane(s)
    ensures v <= Run(s, es).saved <==> v <= s.saved || Landed(s, es, v)
    ensures Sane(Run(s, es)) && s.saved <= Run(s, es).saved
    decreases |es|
  {
    if es == [] {
    } else {
      assert Sane(Step(s, es[0]));
      SavedExactlyWhenLanded(Step(s, es[0]), es[1..], v);
    }
  }

  /** The outcomes of the runner's writes that end in a run. */
  function WriteResults(s: State, es: seq<Event>): seq<bool>
    decreases |es|
  {
    if es == [] then []
    else
      var rest := WriteResults(Step(s, es[0]), es[1..]);
      if es[0].Advance? && s.phase.Writing? then [es[0].ok] + rest else rest
  }

  /** The runner's writes still to end if nobody calls any more. */
  function WritesLeft(s: State): nat {
    SnapshotsLeft(s) + if s.phase.Writing? then 1 else 0
  }

  predicate Quiet(es: seq<Event>) {
    forall e :: e in es ==> !e.Call? && !e.DirectBegin?
  }

  /** How the direct save ends that is under way. */
  function FirstEnd(es: seq<Event>): Option<bool> {
    if es == [] then None else if es[0].DirectEnd? then Some(es[0].ok) else FirstEnd(es[1..])
  }

  /** A direct save that is under way writes version v or newer, and succeeds. */
  predicate DirectLands(s: State, es: seq<Event>, v: nat) {
    s.direct.Some? && v <= s.direct.value && FirstEnd(es) == Some(true)
  }

  /** A write that is under way and holds less than version v does not count. */
  function Stale(s: State, v: nat): nat {
    if s.phase.Writing? && s.snapshot < v then 1 else 0
  }

  lemma {:induction false} ServedExactlyWhen(s: State, es: seq<Event>, v: nat)
    requires Sane(s) && v <= s.version && Quiet(es)
    ensures
      var w := WriteResults(s, es);
      && |w| <= WritesLeft(s)
      && (Run(s, es).phase.Idle? ==> |w| == WritesLeft(s))
      && (v <= Run(s, es).saved <==>
            v <= s.saved || DirectLands(s, es, v) || exists i: nat :: Stale(s, v) <= i < |w| && w[i])
    decreases |es|
  {
    if es == [] {
    } else {
      var e, t := es[0], Step(s, es[0]);
      assert e in es;
      ServedExactlyWhen(t, es[1..], v);
      var w, rest := WriteResults(s, es), WriteResults(t, es[1..]);
      if e.Advance? && s.phase.Writing? {
        assert w == [e.ok] + rest && Stale(t, v) == 0;
        assert w[0] == e.ok;
        assert forall i: nat :: i < |rest| ==> rest[i] == w[i + 1];
        if i: nat :| Stale(s, v) <= i < |w| && w[i] {
          assert i == 0 || rest[i - 1];
        }
      } else {
        assert w == rest && Stale(t, v) == Stale(s, v);
      }
    }
  }

  /** The last call: with no call and no new direct save behind it, the data it asked for reaches the file
      if and only if the file held it already, or one of the runner's remaining writes succeeds, or a
      direct save that was under way with that data does; a write that was under way with an older
      snapshot is none of them. At rest the runner's writes are all over. */
  lemma LastCallIsServedExactlyWhen(before: seq<Event>, after: seq<Event>)
    requires Quiet(after)
    ensures
      var s := Run(START, before);
      var w := WriteResults(Step(s, Call), after);
      var end := Run(START, before + [Call] + after);
      && (s.version <= end.saved <==>
            || s.version <= s.saved || DirectLands(s, after, s.version)
            || exists i: nat :: Stale(s, s.version) <= i < |w| && w[i])
      && (end.phase.Idle? ==> |w| == WritesLeft(Step(s, Call)))
  {
    var s := Run(START, before);
    SavedExactlyWhenLanded(START, before, 0);
    RunConcat(START, before + [Call], after);
    RunConcat(START, before, [Call]);
    assert Run(s, [Call]) == Step(s, Call);
    ServedExactlyWhen(Step(s, Call), after, s.version);
  }

  /** So a call can be lost: its only write fails, is logged, and is not repeated. */
  lemma FailedWriteIsNotRepeated() returns (es: seq<Event>)
    ensures Run(START, es).phase == Idle && Run(START, es).saved < Run(START, es).asked
  {
    es := [Mutate, Call, Advance(true), Advance(true), Advance(false)];
    var s1 := Step(Step(START, Mutate), Call);
    var s2 := Step(Step(Step(s1, Advance(true)), Advance(true)), Advance(false));
    assert Run(START, es) == Run(s1, [Advance(true), Advance(true), Advance(false)]);
    assert Run(s1, [Advance(true), Advance(true), Advance(false)]) == s2;
  }

  class Saver {
    var savePending: bool
    var saveDirtyAgain: bool
    var phase: Phase
    var version: nat
    var snapshot: nat
    var saved: nat
    var direct: Option<nat>
    ghost var asked: nat
    ghost var snapshots: nat

    ghost function Now(): State
      reads this
    {
      State(phase, savePending, saveDirtyAgain, version, snapshot, saved, asked, snapshots, direct)
    }

    constructor ()
      ensures Now() == START
    {
      savePending, saveDirtyAgain, phase := false, false, Idle;
      version, snapshot, saved := 0, 0, 0;
      asked, snapshots, direct := 0, 0, None;
    }

    /** schedule_save() up to its return or its first await. */
    method ScheduleSave()
      modifies this
      ensures Now() == Step(old(Now()), Call)
    {
      asked := version;
      if savePending {
        saveDirtyAgain := true;
        return;
      }
      savePending := true;
      saveDirtyAgain := false;
      phase := Sleeping;
    }

    /** The sleep is over: save_state() waits for the lock. */
    method Wake()
      requires phase == Sleeping
      modifies this
      ensures forall ok :: Now() == Step(old(Now()), Advance(ok))
    {
      phase := Locking;
    }

    /** The lock is held: the data is copied, then the file is written. */
    method TakeSnapshot()
      requires phase == Locking && direct.None?
      modifies this
      ensures forall ok :: Now() == Step(old(Now()), Advance(ok))
    {
      snapshot := version;
      snapshots := snapshots + 1;
      phase := Writing;
    }

    /** The write is over: the runner looks at the flag and sleeps again or ends. */
    method Finish(ok: bool)
      requires phase == Writing
      modifies this
      ensures Now() == Step(old(Now()), Advance(ok))
    {
      if ok {
        saved := snapshot;
      }
      if saveDirtyAgain {
        saveDirtyAgain := false;
        phase := Sleeping;
      } else {
        savePending := false;
        phase := Idle;
      }
    }

    /** save_state() called by somebody else, once it has the lock. */
    method BeginDirectSave()
      requires phase != Writing && direct.None?
      modifies this
      ensures Now() == Step(old(Now()), DirectBegin) && direct == Some(old(version))
    {
      direct := Some(version);
    }

    method EndDirectSave(ok: bool)
      requires direct.Some?
      modifies this
      ensures Now() == Step(old(Now()), DirectEnd(ok))
    {
      if ok {
        saved := direct.value;
      }
      direct := None;
    }
  }
}
