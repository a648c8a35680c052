/**
 The decode activity of local-engine/src/activity.rs: workers publish finished steps under a lock and
 then notify; callers sleep on a condition variable until a step finishes or a deadline passes.
 The protocol is a state machine over the sections that the lock makes atomic, for any number of
 publishers and callers.
 */
module Activity {

  /** The step counter is a u64 that wraps around. */
  const WRAP: nat := 0x1_0000_0000_0000_0000

  /** What the lock protects. */
  datatype Shared = Shared(busy: bool, steps: nat)

  function Stepping(s: Shared): Shared {
    s.(busy := true)
  }

  function Stepped(s: Shared, busy: bool): Shared {
    Shared(busy, (s.steps + 1) % WRAP)
  }

  /** The condition under which a caller that saw the given counter goes on waiting. */
  predicate Waits(s: Shared, start: nat) {
    s.busy && s.steps == start
  }

  /** The sections under the lock, as they update the shared fields. */
  class EngineActivity {
    var busy: bool
    var steps: nat

    ghost predicate Valid()
      reads this
    {
      steps < WRAP
    }

    ghost function Value(): Shared
      reads this
    {
      Shared(busy, steps)
    }

    constructor ()
      ensures Valid() && Value() == Shared(false, 0)
    {
      busy, steps := false, 0;
    }

    /** The protocol's BeginStep, on the shared part of any state. */
    method BeginStep()
      requires Valid()
      modifies this
      ensures Valid() && Value() == Stepping(old(Value()))
      ensures forall s: State, p: nat | s.shared == old(Value()) && Enabled(s, Action.BeginStep(p)) ::
                Next(s, Action.BeginStep(p)).shared == Value()
    {
      busy := true;
    }

    /** The protocol's FinishStep, on the shared part of any state. */
    method FinishStep(remain: bool)
      requires Valid()
      modifies this
      ensures Valid() && Value() == Stepped(old(Value()), remain)
      ensures forall s: State, p: nat | s.shared == old(Value()) && Enabled(s, Action.FinishStep(p, remain)) ::
                Next(s, Action.FinishStep(p, remain)).shared == Value()
    {
      steps := if steps + 1 == WRAP then 0 else steps + 1;
      busy := remain;
    }

    /**
     The start of a call, in any state that a run can have with these fields: it sleeps, remembering
     the steps finished so far, exactly when the protocol's Yield puts it to sleep.
     */
    method BeginWait() returns (waits: bool, start: nat)
      requires Valid()
      ensures forall s: State, c: nat | Inv(s) && s.shared == Value() && c !in s.waiting ::
                BeganWait(s, c, waits, start)
    {
      waits, start := busy, steps;
    }

    /**
     The recheck of a sleeper that saw the given counter, in any state that a run can have with these
     fields: while fewer than 2^64 steps have finished since its call, it goes on waiting exactly when
     none has.
     */
    method Recheck(start: nat) returns (waits: bool)
      requires Valid()
      ensures forall s: State, c: nat | Inv(s) && s.shared == Value() && c in s.waiting
                && s.waiting[c].start == start ::
                Rechecked(s, c, waits)
    {
      waits := busy && steps == start;
      forall s: State, c: nat | Inv(s) && s.shared == Value() && c in s.waiting && s.waiting[c].start == start
        ensures Rechecked(s, c, waits)
      {
        RecheckTells(s, c);
      }
    }
  }

  // ----- The protocol -----

  /** A caller asleep: the counter it saw, the steps finished by then, and whether a notification has reached it. */
  datatype Waiter = Waiter(start: nat, since: nat, woken: bool)

  /** How a call ends: without waiting, because its condition ended, or at its deadline. */
  datatype Ending = Idle | Early | TimedOut

  /** A finished call, with the steps finished when it began and when it ended. */
  datatype Call = Call(caller: nat, ending: Ending, since: nat, at: nat)

  /** Publishers in `pending` have released the lock after a step and not yet notified. */
  datatype State = State(shared: Shared, finished: nat, pending: set<nat>, waiting: map<nat, Waiter>, log: seq<Call>)

  datatype Action =
    | BeginStep(publisher: nat)
    | FinishStep(publisher: nat, remain: bool)
    | Notify(publisher: nat)
    | Yield(caller: nat, late: bool)
    | Wake(caller: nat, late: bool)

  const INIT: State := State(Shared(false, 0), 0, {}, map[], [])

  predicate Enabled(s: State, a: Action) {
    match a
    case BeginStep(p) => p !in s.pending
    case FinishStep(p, _) => p !in s.pending
    case Notify(p) => p in s.pending
    case Yield(c, _) => c !in s.waiting
    case Wake(c, _) => c in s.waiting
  }

  /** The end of a call, or one more sleep, for a caller that holds the lock. */
  function Check(s: State, c: nat, w: Waiter, late: bool): State {
    if !Waits(s.shared, w.start) then
      s.(waiting := s.waiting - {c}, log := s.log + [Call(c, Early, w.since, s.finished)])
    else if late then
      s.(waiting := s.waiting - {c}, log := s.log + [Call(c, TimedOut, w.since, s.finished)])
    else
      s.(waiting := s.waiting[c := w.(woken := false)])
  }

  /**
   One atomic section. A sleeper may wake at any time: notified, at its deadline or for no reason.
   */
  function Next(s: State, a: Action): State
    requires Enabled(s, a)
  {
    match a
    case BeginStep(_) => s.(shared := Stepping(s.shared))
    case FinishStep(p, remain) => s.(shared := Stepped(s.shared, remain), finished := s.finished + 1,
                                     pending := s.pending + {p})
    case Notify(p) => s.(pending := s.pending - {p}, waiting := map c | c in s.waiting :: s.waiting[c].(woken := true))
    case Yield(c, late) =>
      if !s.shared.busy then s.(log := s.log + [Call(c, Idle, s.finished, s.finished)])
      else Check(s, c, Waiter(s.shared.steps, s.finished, false), late)
    case Wake(c, late) => Check(s, c, s.waiting[c], late)
  }

  /** A run from the initial state: every interleaving is one. */
  ghost predicate Run(actions: seq<Action>, states: seq<State>) {
    && |states| == |actions| + 1 && states[0] == INIT
    && forall k | 0 <= k < |actions| :: Enabled(states[k], actions[k]) && states[k + 1] == Next(states[k], actions[k])
  }

  // ----- The invariant -----

  ghost predicate WaiterInv(s: State, w: Waiter) {
    && w.since <= s.finished && w.start == w.since % WRAP
    && (w.since == s.finished ==> s.shared.busy)
    && (!Waits(s.shared, w.start) ==> w.woken || s.pending != {})
  }

  ghost predicate CallInv(s: State, k: Call) {
    && k.since <= k.at <= s.finished
    && (k.ending == Early ==> k.since < k.at)
    && (k.ending == Idle ==> k.since == k.at)
    && (k.ending == TimedOut ==> (k.at - k.since) % WRAP == 0)
    && (k.caller in s.waiting ==> k.at <= s.waiting[k.caller].since)
  }

  ghost predicate LogInv(s: State) {
    && (forall i | 0 <= i < |s.log| :: CallInv(s, s.log[i]))
    && (forall i, j | 0 <= i < j < |s.log| && s.log[i].caller == s.log[j].caller :: s.log[i].at <= s.log[j].since)
  }

  ghost predicate Inv(s: State) {
    && s.shared.steps == s.finished % WRAP
    && (forall c | c in s.waiting :: WaiterInv(s, s.waiting[c]))
    && LogInv(s)
  }

  lemma CounterSteps(n: nat)
    ensures (n % WRAP + 1) % WRAP == (n + 1) % WRAP
  {
    var q := n / WRAP;
    assert n == q * WRAP + n % WRAP;
    if n % WRAP + 1 == WRAP {
      assert n + 1 == (q + 1) * WRAP;
    } else {
      assert n + 1 == q * WRAP + (n % WRAP + 1);
    }
  }

  /** A call begun in the state: asleep with this start and the steps so far, or ended at once. */
  ghost predicate BeganWait(s: State, c: nat, waits: bool, start: nat)
    requires c !in s.waiting
  {
    var t := Next(s, Yield(c, false));
    && start == s.finished % WRAP
    && (waits ==> t == s.(waiting := s.waiting[c := Waiter(start, s.finished, false)]))
    && (!waits ==> t == s.(log := s.log + [Call(c, Idle, s.finished, s.finished)]))
  }

  /** What rechecking tells a sleeper: whether a step has finished since its call, and so whether it stays asleep. */
  ghost predicate Rechecked(s: State, c: nat, waits: bool)
    requires c in s.waiting
  {
    && (s.finished < s.waiting[c].since + WRAP ==> (waits <==> s.finished == s.waiting[c].since))
    && (waits <==> c in Next(s, Wake(c, false)).waiting)
  }

  lemma RecheckTells(s: State, c: nat)
    requires Inv(s) && c in s.waiting
    ensures Rechecked(s, c, Waits(s.shared, s.waiting[c].start))
  {
    assert WaiterInv(s, s.waiting[c]);
    SameResidue(s.waiting[c].since, s.finished);
    if s.waiting[c].since < s.finished < s.waiting[c].since + WRAP {
      Small(s.finished - s.waiting[c].since);
    }
  }

  lemma PublisherKeepsInv(s: State, a: Action)
    requires Inv(s) && Enabled(s, a) && (a.BeginStep? || a.FinishStep? || a.Notify?)
    ensures Inv(Next(s, a))
  {
    CounterSteps(s.finished);
    var t := Next(s, a);
    forall c | c in t.waiting ensures WaiterInv(t, t.waiting[c]) {
      assert WaiterInv(s, s.waiting[c]);
      if a.BeginStep? && s.waiting[c].since == s.finished {
        assert s.shared.busy;
      }
    }
    forall i | 0 <= i < |t.log| ensures CallInv(t, t.log[i]) {
      assert CallInv(s, s.log[i]);
    }
  }

  /** A caller's section changes only its own entry and appends at most one call, begun at w.since. */
  lemma CheckKeepsInv(s: State, c: nat, w: Waiter, late: bool)
    requires Inv(s) && WaiterInv(s, w)
    requires forall i | 0 <= i < |s.log| && s.log[i].caller == c :: s.log[i].at <= w.since
    ensures Inv(Check(s, c, w, late))
  {
    var t := Check(s, c, w, late);
    SameResidue(w.since, s.finished);
    forall d | d in t.waiting ensures WaiterInv(t, t.waiting[d]) {
      assert d in s.waiting ==> WaiterInv(s, s.waiting[d]);
    }
    assert t.log == s.log || t.log == s.log + [t.log[|s.log|]];
    forall i | 0 <= i < |t.log| ensures CallInv(t, t.log[i]) {
      assert i < |s.log| ==> CallInv(s, s.log[i]);
    }
  }

  lemma CallerKeepsInv(s: State, a: Action)
    requires Inv(s) && Enabled(s, a) && (a.Yield? || a.Wake?)
    ensures Inv(Next(s, a))
  {
    var c := a.caller;
    forall i | 0 <= i < |s.log| ensures CallInv(s, s.log[i]) {
    }
    if a.Wake? {
      CheckKeepsInv(s, c, s.waiting[c], a.late);
    } else if s.shared.busy {
      CheckKeepsInv(s, c, Waiter(s.shared.steps, s.finished, false), a.late);
    } else {
      var t := Next(s, a);
      forall d | d in t.waiting ensures WaiterInv(t, t.waiting[d]) {
        assert WaiterInv(s, s.waiting[d]);
      }
      forall i | 0 <= i < |t.log| ensures CallInv(t, t.log[i]) {
        assert i < |s.log| ==> CallInv(s, s.log[i]);
      }
    }
  }

  /** The invariant holds at every state of every run. */
  lemma {:induction false} RunKeepsInv(actions: seq<Action>, states: seq<State>, k: nat)
    requires Run(actions, states) && k < |states|
    ensures Inv(states[k])
  {
    if k > 0 {
      RunKeepsInv(actions, states, k - 1);
      var a := actions[k - 1];
      if a.Yield? || a.Wake? {
        CallerKeepsInv(states[k - 1], a);
      } else {
        PublisherKeepsInv(states[k - 1], a);
      }
    }
  }

  // ----- What it gives -----

  /** The number of steps finished by the actions. */
  ghost function StepsIn(actions: seq<Action>): nat {
    if actions == [] then 0 else StepsIn(actions[..|actions| - 1]) + if actions[|actions| - 1].FinishStep? then 1 else 0
  }

  /** Whether the last word of the publishers is that generations run. */
  ghost predicate Running(actions: seq<Action>) {
    actions != [] &&
    match actions[|actions| - 1]
    case BeginStep(_) => true
    case FinishStep(_, remain) => remain
    case _ => Running(actions[..|actions| - 1])
  }

  /** The shared fields tell exactly the history of publishing. */
  lemma {:induction false} SharedTellsHistory(actions: seq<Action>, states: seq<State>, k: nat)
    requires Run(actions, states) && k < |states|
    ensures states[k].finished == StepsIn(actions[..k])
    ensures states[k].shared == Shared(Running(actions[..k]), StepsIn(actions[..k]) % 18446744073709551616)
  {
    RunKeepsInv(actions, states, k);
    if k > 0 {
      SharedTellsHistory(actions, states, k - 1);
      assert actions[..k][..k - 1] == actions[..k - 1];
      assert Enabled(states[k - 1], actions[k - 1]) && states[k] == Next(states[k - 1], actions[k - 1]);
    }
  }

  /** Between a state that is busy and a later one that is not, a step has finished. */
  lemma {:induction false} BusyFallsWithAStep(actions: seq<Action>, states: seq<State>, j: nat, k: nat)
    requires Run(actions, states) && j <= k < |states|
    requires states[j].shared.busy && !states[k].shared.busy
    ensures states[j].finished < states[k].finished
    decreases k
  {
    assert Enabled(states[k - 1], actions[k - 1]) && states[k] == Next(states[k - 1], actions[k - 1]);
    if !states[k - 1].shared.busy {
      BusyFallsWithAStep(actions, states, j, k - 1);
    } else {
      StepsOnlyGrow(actions, states, j, k - 1);
    }
  }

  lemma {:induction false} StepsOnlyGrow(actions: seq<Action>, states: seq<State>, j: nat, k: nat)
    requires Run(actions, states) && j <= k < |states|
    ensures states[j].finished <= states[k].finished
    decreases k
  {
    if j < k {
      StepsOnlyGrow(actions, states, j, k - 1);
      assert Enabled(states[k - 1], actions[k - 1]) && states[k] == Next(states[k - 1], actions[k - 1]);
    }
  }

  /** A call that ends before its deadline saw a step finish after it began. */
  lemma EarlyMeansAStep(actions: seq<Action>, states: seq<State>, k: nat, i: nat)
    requires Run(actions, states) && k < |states| && i < |states[k].log| && states[k].log[i].ending == Early
    ensures states[k].log[i].since < states[k].log[i].at <= states[k].finished
  {
    RunKeepsInv(actions, states, k);
    assert CallInv(states[k], states[k].log[i]);
  }

  /** A call that ends at its deadline saw no step finish since it began, nor any number below 2^64. */
  lemma LateMeansNoStep(actions: seq<Action>, states: seq<State>, k: nat, i: nat)
    requires Run(actions, states) && k < |states| && i < |states[k].log| && states[k].log[i].ending == TimedOut
    ensures var call := states[k].log[i];
            call.at - call.since >= 0 && (call.at == call.since || call.at >= call.since + 18446744073709551616)
  {
    RunKeepsInv(actions, states, k);
    var call := states[k].log[i];
    assert CallInv(states[k], call);
    if 0 < call.at - call.since < WRAP {
      Small(call.at - call.since);
    }
  }

  /** Calls that one caller makes end before its next begins, so no two early ends share a step. */
  lemma EarlyEndsAreDisjoint(actions: seq<Action>, states: seq<State>, k: nat, i: nat, j: nat)
    requires Run(actions, states) && k < |states| && i < j < |states[k].log|
    requires states[k].log[i].caller == states[k].log[j].caller
    requires states[k].log[i].ending == Early && states[k].log[j].ending == Early
    ensures states[k].log[i].since < states[k].log[i].at <= states[k].log[j].since < states[k].log[j].at
  {
    RunKeepsInv(actions, states, k);
    assert CallInv(states[k], states[k].log[i]) && CallInv(states[k], states[k].log[j]);
  }

  /** The early ends of a caller among the first n calls. */
  ghost function EarlyEnds(log: seq<Call>, c: nat): nat {
    if log == [] then 0
    else EarlyEnds(log[..|log| - 1], c) + if log[|log| - 1].caller == c && log[|log| - 1].ending == Early then 1 else 0
  }

  /** A caller has at most one early end for every finished step. */
  lemma EarlyEndsAreFew(actions: seq<Action>, states: seq<State>, k: nat, c: nat)
    requires Run(actions, states) && k < |states|
    ensures EarlyEnds(states[k].log, c) <= states[k].finished
  {
    RunKeepsInv(actions, states, k);
    var s := states[k];
    var bound := EarlyEndsBefore(s, s.log, c);
  }

  /** The early ends so far are no more than the steps finished at the last of them. */
  lemma {:induction false} EarlyEndsBefore(s: State, log: seq<Call>, c: nat) returns (last: nat)
    requires LogInv(s) && log <= s.log
    ensures EarlyEnds(log, c) <= last <= s.finished
    ensures last == 0 || exists i :: 0 <= i < |log| && log[i].caller == c && last == log[i].at
  {
    last := 0;
    if log != [] {
      var n := |log| - 1;
      var before := EarlyEndsBefore(s, log[..n], c);
      last := before;
      assert CallInv(s, s.log[n]);
      if log[n].caller == c && log[n].ending == Early {
        last := log[n].at;
        assert before <= log[n].since by {
          if before != 0 {
            var i :| 0 <= i < n && log[..n][i].caller == c && before == log[..n][i].at;
            assert s.log[i].caller == s.log[n].caller;
          }
        }
      } else if before != 0 {
        var i :| 0 <= i < n && log[..n][i].caller == c && before == log[..n][i].at;
        assert log[i] == log[..n][i];
      }
    }
  }

  /** The condition of a sleeper has ended exactly when nothing runs or the counter differs from the one it saw. */
  lemma WaitsUntilAStep(actions: seq<Action>, states: seq<State>, k: nat, c: nat)
    requires Run(actions, states) && k < |states| && c in states[k].waiting
    ensures var s, w := states[k], states[k].waiting[c];
            Waits(s.shared, w.start) <==> s.shared.busy && (s.finished - w.since) % WRAP == 0
  {
    RunKeepsInv(actions, states, k);
    var s, w := states[k], states[k].waiting[c];
    assert WaiterInv(s, w);
    SameResidue(w.since, s.finished);
  }

  lemma SameResidue(a: nat, b: nat)
    requires a <= b
    ensures a % WRAP == b % WRAP <==> (b - a) % WRAP == 0
  {
    var qa, qb := a / WRAP, b / WRAP;
    assert a == qa * WRAP + a % WRAP && b == qb * WRAP + b % WRAP;
    if a % WRAP == b % WRAP {
      Multiple(b - a, qb - qa);
    }
    if (b - a) % WRAP == 0 {
      var q := (b - a) / WRAP;
      assert b - a == q * WRAP;
      assert b == (qa + q) * WRAP + a % WRAP;
      Unique(b, qa + q, a % WRAP);
    }
  }

  lemma Multiple(n: int, q: int)
    requires n == q * WRAP
    ensures n % WRAP == 0
  {
  }

  lemma Unique(n: int, q: int, r: nat)
    requires n == q * WRAP + r && r < WRAP
    ensures n % WRAP == r
  {
  }

  /**
   No lost wake-up: a sleeper since whose call some step, and fewer than 2^64 steps, have finished has
   been notified, or some publisher is about to notify it. Waking it then ends its call.
   */
  lemma NoLostWakeup(actions: seq<Action>, states: seq<State>, k: nat, c: nat, late: bool)
    requires Run(actions, states) && k < |states| && c in states[k].waiting
    requires var s, w := states[k], states[k].waiting[c]; w.since < s.finished < w.since + WRAP
    ensures var s, w := states[k], states[k].waiting[c];
            && (w.woken || exists p :: p in s.pending && Enabled(s, Notify(p)) && Next(s, Notify(p)).waiting[c].woken)
            && c !in Next(s, Wake(c, late)).waiting
            && Next(s, Wake(c, late)).log == s.log + [Call(c, Early, w.since, s.finished)]
  {
    RunKeepsInv(actions, states, k);
    WaitsUntilAStep(actions, states, k, c);
    var s, w := states[k], states[k].waiting[c];
    assert WaiterInv(s, w);
    Small(s.finished - w.since);
    if !w.woken {
      var p :| p in s.pending;
      assert Enabled(s, Notify(p)) && Next(s, Notify(p)).waiting[c].woken;
    }
  }

  lemma Small(n: int)
    requires 0 < n < WRAP
    ensures n % WRAP != 0
  {
  }

  /** A sleeper whose condition has ended, by whatever number of steps, has a notification delivered or pending. */
  lemma EndedMeansNotified(actions: seq<Action>, states: seq<State>, k: nat, c: nat)
    requires Run(actions, states) && k < |states| && c in states[k].waiting
    requires !Waits(states[k].shared, states[k].waiting[c].start)
    ensures states[k].waiting[c].woken || states[k].pending != {}
    ensures states[k].waiting[c].since < states[k].finished
  {
    RunKeepsInv(actions, states, k);
    assert WaiterInv(states[k], states[k].waiting[c]);
  }

  // ----- The wrapped counter -----

  /** A caller that sleeps through n steps of one worker. */
  ghost function SleepActions(c: nat, n: nat): seq<Action> {
    if n == 0 then [BeginStep(0), Yield(c, false)] else SleepActions(c, n - 1) + [FinishStep(0, true), Notify(0)]
  }

  ghost function Asleep(c: nat, n: nat): State {
    State(Shared(true, n % WRAP), n, {}, map[c := Waiter(0, 0, n > 0)], [])
  }

  ghost function SleepStates(c: nat, n: nat): seq<State> {
    if n == 0 then [INIT, Next(INIT, BeginStep(0)), Asleep(c, 0)]
    else SleepStates(c, n - 1) + [Next(Asleep(c, n - 1), FinishStep(0, true)), Asleep(c, n)]
  }

  lemma {:induction false} SleepRun(c: nat, n: nat)
    ensures Run(SleepActions(c, n), SleepStates(c, n))
    ensures SleepStates(c, n)[|SleepActions(c, n)|] == Asleep(c, n)
  {
    if n > 0 {
      SleepRun(c, n - 1);
      var actions, states := SleepActions(c, n - 1), SleepStates(c, n - 1);
      var stepped := SleptThrough(c, n);
      SleepNext(c, n, actions, states, stepped);
    } else {
      SleepStarts(c);
    }
  }

  lemma SleepStarts(c: nat)
    ensures Run(SleepActions(c, 0), SleepStates(c, 0)) && SleepStates(c, 0)[|SleepActions(c, 0)|] == Asleep(c, 0)
  {
  }

  /** One more step and its notification leave the caller asleep. */
  lemma SleptThrough(c: nat, n: nat) returns (stepped: State)
    requires n > 0
    ensures Enabled(Asleep(c, n - 1), FinishStep(0, true)) && stepped == Next(Asleep(c, n - 1), FinishStep(0, true))
    ensures Enabled(stepped, Notify(0)) && Next(stepped, Notify(0)) == Asleep(c, n)
  {
    CounterSteps(n - 1);
    stepped := Next(Asleep(c, n - 1), FinishStep(0, true));
  }

  lemma SleepNext(c: nat, n: nat, actions: seq<Action>, states: seq<State>, stepped: State)
    requires n > 0 && actions == SleepActions(c, n - 1) && states == SleepStates(c, n - 1)
    requires Run(actions, states) && states[|actions|] == Asleep(c, n - 1)
    requires Enabled(Asleep(c, n - 1), FinishStep(0, true)) && stepped == Next(Asleep(c, n - 1), FinishStep(0, true))
    requires Enabled(stepped, Notify(0)) && Next(stepped, Notify(0)) == Asleep(c, n)
    ensures Run(SleepActions(c, n), SleepStates(c, n))
    ensures SleepStates(c, n)[|SleepActions(c, n)|] == Asleep(c, n)
  {
    hide Next, Asleep, Enabled;
    RunLength(actions, states);
    RunMore(actions, states, FinishStep(0, true));
    RunMore(actions + [FinishStep(0, true)], states + [stepped], Notify(0));
    hide Run;
    assert actions + [FinishStep(0, true)] + [Notify(0)] == SleepActions(c, n);
    assert states + [stepped] + [Asleep(c, n)] == SleepStates(c, n);
  }

  lemma RunLength(actions: seq<Action>, states: seq<State>)
    requires Run(actions, states)
    ensures |states| == |actions| + 1
  {
  }

  lemma RunMore(actions: seq<Action>, states: seq<State>, a: Action)
    requires Run(actions, states) && Enabled(states[|actions|], a)
    ensures Run(actions + [a], states + [Next(states[|actions|], a)])
  {
    var more, next := actions + [a], states + [Next(states[|actions|], a)];
    forall k | 0 <= k < |more| ensures Enabled(next[k], more[k]) && next[k + 1] == Next(next[k], more[k]) {
      assert k < |actions| ==> Enabled(states[k], actions[k]) && states[k + 1] == Next(states[k], actions[k]);
    }
  }

  /**
   After exactly 2^64 steps the counter is back: there is a run in which a caller has slept through
   them all, has been notified, wakes before its deadline and goes back to sleep.
   */
  lemma WrappedCounterHidesSteps(c: nat) returns (actions: seq<Action>, states: seq<State>)
    ensures Run(actions, states) && |actions| > 0 && actions[|actions| - 1] == Wake(c, false)
    ensures var s, t := states[|actions| - 1], states[|actions|];
            && c in s.waiting && s.waiting[c].woken && s.finished == s.waiting[c].since + 18446744073709551616
            && t == s.(waiting := map[c := s.waiting[c].(woken := false)])
  {
    SleepRun(c, WRAP);
    var before, sleeping := SleepActions(c, WRAP), SleepStates(c, WRAP);
    Multiple(WRAP, 1);
    RunMore(before, sleeping, Wake(c, false));
    actions, states := before + [Wake(c, false)], sleeping + [Next(Asleep(c, WRAP), Wake(c, false))];
    assert states[|actions| - 1] == Asleep(c, WRAP);
  }

  /** In a run a call returns at once exactly when the publishers' last word is that nothing runs. */
  lemma WaitsOnlyWhenRunning(actions: seq<Action>, states: seq<State>, k: nat, c: nat)
    requires Run(actions, states) && k < |actions| && actions[k] == Yield(c, false)
    ensures Running(actions[..k]) <==> c in states[k + 1].waiting
    ensures !Running(actions[..k]) <==>
            states[k + 1].log == states[k].log + [Call(c, Idle, StepsIn(actions[..k]), StepsIn(actions[..k]))]
  {
    SharedTellsHistory(actions, states, k);
    assert Enabled(states[k], actions[k]) && states[k + 1] == Next(states[k], actions[k]);
    assert |states[k + 1].log| == |states[k].log| + if states[k].shared.busy then 0 else 1;
  }
}
