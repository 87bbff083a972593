/** The lock-free saturating reference count against the locked one, for any number of threads. */
module RefCount {
  import opened Wire

  const REFCOUNT_MAX: nat := 0xffff_ffff

  datatype Op = Inc | Dec

  // ---- the locked form ----

  /** One critical section: the new count and what the call returns; None is an abort. */
  function Locked(count: nat, op: Op): Option<(nat, bool)> {
    match op
    case Inc => Some((if count < REFCOUNT_MAX then count + 1 else count, false))
    case Dec =>
      if count == 0 then None
      else
        var c := if count < REFCOUNT_MAX then count - 1 else count;
        Some((c, c == 0))
  }

  /** refcount_lock.c; the lock makes each call one step. */
  class LockedCount {
    var count: nat

    constructor (initial: nat)
      requires initial <= REFCOUNT_MAX
      ensures count == initial
    {
      count := initial;
    }

    method Increment()
      requires count <= REFCOUNT_MAX
      modifies this
      ensures Some((count, false)) == Locked(old(count), Inc) && count <= REFCOUNT_MAX
    {
      if count < REFCOUNT_MAX {
        count := count + 1;
      }
    }

    /** `None` is the abort at zero. */
    method DecrementAndTestZero() returns (ret: Option<bool>)
      requires count <= REFCOUNT_MAX
      modifies this
      ensures ret.None? <==> Locked(old(count), Dec).None?
      ensures ret.None? ==> count == old(count)
      ensures ret.Some? ==> Some((count, ret.value)) == Locked(old(count), Dec)
      ensures count <= REFCOUNT_MAX
    {
      if count == 0 {
        return None;
      }
      if count < REFCOUNT_MAX {
        count := count - 1;
      }
      ret := Some(count == 0);
    }
  }

  // ---- the lock-free form ----

  /** Where a thread is. `since` is how many operations had taken effect when its call began,
      `index` which one its own was. */
  datatype Phase =
    | Idle
    | Started(op: Op, since: nat)
    | Looping(op: Op, since: nat, expected: nat)
    | Done(op: Op, since: nat, index: nat, result: bool)

  /** An operation that has taken effect, and what it will return. */
  datatype Entry = Entry(thread: nat, op: Op, result: bool)

  datatype State = State(count: nat, threads: seq<Phase>, log: seq<Entry>, aborted: bool)

  /** A thread's next atomic action. A compare-and-swap may fail for no reason. */
  datatype Action = Begin(t: nat, op: Op) | Load(t: nat) | CompareAndSwap(t: nat, spurious: bool) | Return(t: nat)

  /** Reading `expected` and acting on what the loop head makes of it. */
  function Looked(s: State, t: nat, op: Op, since: nat): State
    requires t < |s.threads|
  {
    if op.Dec? && s.count == 0 then s.(aborted := true)
    else if s.count == REFCOUNT_MAX then
      s.(threads := s.threads[t := Done(op, since, |s.log|, false)], log := s.log + [Entry(t, op, false)])
    else s.(threads := s.threads[t := Looping(op, since, s.count)])
  }

  function Step(s: State, a: Action): State {
    if s.aborted || a.t >= |s.threads| then s
    else
      match a
      case Begin(t, op) =>
        if s.threads[t].Idle? then s.(threads := s.threads[t := Started(op, |s.log|)]) else s
      case Load(t) =>
        if s.threads[t].Started? then Looked(s, t, s.threads[t].op, s.threads[t].since) else s
      case CompareAndSwap(t, spurious) =>
        if !s.threads[t].Looping? then s
        else
          var p := s.threads[t];
          if s.count == p.expected && !spurious then
            var c := if p.op.Inc? then p.expected + 1 else p.expected - 1;
            var result := p.op.Dec? && c == 0;
            if c < 0 then s
            else State(c, s.threads[t := Done(p.op, p.since, |s.log|, result)], s.log + [Entry(t, p.op, result)], false)
          else Looked(s, t, p.op, p.since)
      case Return(t) =>
        if s.threads[t].Done? then s.(threads := s.threads[t := Idle]) else s
  }

  function Run(s: State, actions: seq<Action>): State
    decreases |actions|
  {
    if actions == [] then s else Run(Step(s, actions[0]), actions[1..])
  }

  function Initial(count: nat, threads: nat): State {
    State(count, seq(threads, _ => Idle), [], false)
  }

  // ---- linearizability ----

  /** The locked count after the logged operations, if their results are the locked ones. */
  function Replay(start: nat, log: seq<Entry>): Option<nat> {
    if log == [] then Some(start)
    else
      match Replay(start, log[..|log| - 1])
      case None => None
      case Some(count) =>
        match Locked(count, log[|log| - 1].op)
        case None => None
        case Some((c, result)) => if result == log[|log| - 1].result then Some(c) else None
  }

  /** The operation of a finished call took effect once, between its beginning and its end. */
  ghost predicate PhaseOk(p: Phase, t: nat, log: seq<Entry>) {
    match p
    case Idle => true
    case Started(_, since) => since <= |log|
    case Looping(op, since, expected) => since <= |log| && expected < REFCOUNT_MAX && (op.Dec? ==> expected > 0)
    case Done(op, since, index, result) => since <= index < |log| && log[index] == Entry(t, op, result)
  }

  ghost predicate Linearized(start: nat, s: State) {
    && s.count <= REFCOUNT_MAX
    && Replay(start, s.log) == Some(s.count)
    && (forall t :: 0 <= t < |s.threads| ==> PhaseOk(s.threads[t], t, s.log))
    && (s.aborted ==> Locked(s.count, Dec).None?)
  }

  lemma {:induction false} ReplaySnoc(start: nat, log: seq<Entry>, e: Entry)
    requires Replay(start, log).Some?
    requires Locked(Replay(start, log).value, e.op).Some? && Locked(Replay(start, log).value, e.op).value.1 == e.result
    ensures Replay(start, log + [e]) == Some(Locked(Replay(start, log).value, e.op).value.0)
  {
    assert (log + [e])[..|log|] == log;
  }

  lemma {:induction false} LookedLinearized(start: nat, s: State, t: nat, op: Op, since: nat)
    requires Linearized(start, s) && t < |s.threads| && since <= |s.log| && !s.aborted
    ensures Linearized(start, Looked(s, t, op, since))
  {
    hide Replay;
    if s.count == REFCOUNT_MAX {
      ReplaySnoc(start, s.log, Entry(t, op, false));
    }
  }

  lemma {:induction false} StepLinearized(start: nat, s: State, a: Action)
    requires Linearized(start, s)
    ensures Linearized(start, Step(s, a))
    ensures s.log <= Step(s, a).log
  {
    hide Replay;
    if !s.aborted && a.t < |s.threads| {
      assert PhaseOk(s.threads[a.t], a.t, s.log);
      match a
      case Begin(t, op) =>
      case Load(t) =>
        if s.threads[t].Started? {
          LookedLinearized(start, s, t, s.threads[t].op, s.threads[t].since);
        }
      case CompareAndSwap(t, spurious) =>
        var p := s.threads[t];
        if p.Looping? {
          if s.count == p.expected && !spurious {
            var c := if p.op.Inc? then p.expected + 1 else p.expected - 1;
            ReplaySnoc(start, s.log, Entry(t, p.op, p.op.Dec? && c == 0));
          } else {
            LookedLinearized(start, s, t, p.op, p.since);
          }
        }
      case Return(t) =>
    }
  }

  /** For any number of threads and any interleaving with spurious failures: the operations have
      taken effect one after the other with the results of the locked form, each between the
      beginning and the end of its call, and the program has aborted only where the locked form
      would have. */
  lemma {:induction false} Linearizable(start: nat, threads: nat, actions: seq<Action>)
    requires start <= REFCOUNT_MAX
    ensures Linearized(start, Run(Initial(start, threads), actions))
  {
    InitialIsLinearized(start, threads);
    RunLinearized(start, Initial(start, threads), actions);
  }

  lemma {:induction false} FourActions(s: State, a: Action, b: Action, c: Action, d: Action)
    ensures Run(s, [a, b, c, d]) == Step(Step(Step(Step(s, a), b), c), d)
  {
    hide Step;
    assert [a, b, c, d][1..] == [b, c, d] && [b, c, d][1..] == [c, d] && [c, d][1..] == [d] && [d][1..] == [];
    assert Run(s, [a, b, c, d]) == Run(Step(s, a), [b, c, d]);
    assert Run(Step(s, a), [b, c, d]) == Run(Step(Step(s, a), b), [c, d]);
    assert Run(Step(Step(s, a), b), [c, d]) == Run(Step(Step(Step(s, a), b), c), [d]);
  }

  /** What a call comes to when the other threads pause, wherever it stands. */
  function Alone(s: State, t: nat): State {
    Run(s, [Load(t), CompareAndSwap(t, false), CompareAndSwap(t, false), Return(t)])
  }

  /** A call that is left alone returns after at most four actions, and does to the count exactly
      what the locked form does; it aborts exactly where that does. */
  lemma {:induction false} CallCompletes(start: nat, s: State, t: nat)
    requires Linearized(start, s) && !s.aborted && t < |s.threads|
    requires s.threads[t].Started? || s.threads[t].Looping?
    ensures var op, u := s.threads[t].op, Alone(s, t);
            match Locked(s.count, op)
            case None => u.aborted && u.count == s.count
            case Some((c, result)) =>
              u == State(c, s.threads[t := Idle], s.log + [Entry(t, op, result)], false)
  {
    hide Replay, Run;
    assert PhaseOk(s.threads[t], t, s.log);
    FourActions(s, Load(t), CompareAndSwap(t, false), CompareAndSwap(t, false), Return(t));
  }

  lemma {:induction false} RunLinearized(start: nat, s: State, actions: seq<Action>)
    requires Linearized(start, s)
    ensures Linearized(start, Run(s, actions)) && s.log <= Run(s, actions).log
    decreases |actions|
  {
    hide Replay, Step, Linearized;
    if actions != [] {
      StepLinearized(start, s, actions[0]);
      RunLinearized(start, Step(s, actions[0]), actions[1..]);
    }
  }

  lemma {:induction false} InitialIsLinearized(start: nat, threads: nat)
    requires start <= REFCOUNT_MAX
    ensures Linearized(start, Initial(start, threads))
  {
  }

  /** A call that has ended before another began took effect before it. */
  lemma {:induction false} RealTimeOrder(start: nat, s: State, t: nat, u: nat, op: Op, actions: seq<Action>)
    requires Linearized(start, s) && t < |s.threads| && s.threads[t].Done?
    requires u < |s.threads| && u != t && s.threads[u].Idle? && !s.aborted
    ensures var later := Run(Step(s, Begin(u, op)), actions);
            u < |later.threads| && later.threads[u].Done? && later.threads[u].since == |s.log|
            ==> later.threads[u].index > s.threads[t].index
  {
    hide Replay, Run;
    StepLinearized(start, s, Begin(u, op));
    RunLinearized(start, Step(s, Begin(u, op)), actions);
    var later := Run(Step(s, Begin(u, op)), actions);
    assert PhaseOk(s.threads[t], t, s.log);
    if u < |later.threads| && later.threads[u].Done? {
      assert PhaseOk(later.threads[u], u, later.log);
    }
  }

  // ---- what the count is good for ----

  /** The references each thread holds, beside what the threads are doing. */
  datatype World = World(s: State, held: seq<nat>)

  /** A thread acts on the count, or hands one of its references to another thread. */
  datatype Move = Act(a: Action) | Give(from: nat, to: nat)

  /** What holders may do: a call is begun only with a reference in hand, and a thread that is
      inside a call gives nothing away. */
  predicate Disciplined(w: World, m: Move)
    requires |w.held| == |w.s.threads|
  {
    match m
    case Act(Begin(t, _)) => t < |w.held| && w.s.threads[t].Idle? && w.held[t] > 0
    case Act(_) => true
    case Give(from, to) => from < |w.held| && to < |w.held| && w.s.threads[from].Idle? && w.held[from] > 0
  }

  /** A release gives its reference up when it begins; an acquired one is held from the return. */
  function HolderStep(w: World, m: Move): (w': World)
    requires |w.held| == |w.s.threads|
    ensures |w'.held| == |w'.s.threads| == |w.held|
  {
    if !Disciplined(w, m) then w
    else
      match m
      case Act(Begin(t, op)) =>
        World(Step(w.s, m.a), if op.Dec? then w.held[t := w.held[t] - 1] else w.held)
      case Act(Return(t)) =>
        World(Step(w.s, m.a),
              if t < |w.held| && !w.s.aborted && w.s.threads[t].Done? && w.s.threads[t].op.Inc?
              then w.held[t := w.held[t] + 1] else w.held)
      case Act(_) => w.(s := Step(w.s, m.a))
      case Give(from, to) =>
        var less := w.held[from := w.held[from] - 1];
        w.(held := less[to := less[to] + 1])
  }

  /** Any interleaving of any number of threads that keep to the discipline. */
  function HolderRun(held: seq<nat>, moves: seq<Move>): (w: World)
    ensures |w.held| == |w.s.threads| == |held|
  {
    if moves == [] then World(Initial(Sum(held), |held|), held)
    else HolderStep(HolderRun(held, moves[..|moves| - 1]), moves[|moves| - 1])
  }

  function Sum(s: seq<nat>): nat {
    if s == [] then 0 else Sum(s[..|s| - 1]) + s[|s| - 1]
  }

  /** A call under way stands for one reference while its release has not taken effect, or its
      acquire has. */
  function UnderWay(p: Phase): nat {
    match p
    case Idle => 0
    case Started(op, _) => if op.Dec? then 1 else 0
    case Looping(op, _, _) => if op.Dec? then 1 else 0
    case Done(op, _, _, _) => if op.Inc? then 1 else 0
  }

  function Weights(threads: seq<Phase>): (r: seq<nat>)
    ensures |r| == |threads|
  {
    seq(|threads|, t requires 0 <= t < |threads| => UnderWay(threads[t]))
  }

  /** References held plus those under way. */
  function References(w: World): nat {
    Sum(w.held) + Sum(Weights(w.s.threads))
  }

  function Zeros(log: seq<Entry>): nat {
    if log == [] then 0 else Zeros(log[..|log| - 1]) + (if log[|log| - 1].result then 1 else 0)
  }

  /** Every operation took effect at a positive count. */
  ghost predicate AllPositive(start: nat, log: seq<Entry>) {
    forall i :: 0 <= i < |log| ==>
      match Replay(start, log[..i])
      case None => false
      case Some(count) => count > 0
  }

  /** An acquire under way keeps the reference it was begun with. */
  ghost predicate AcquiresHeld(w: World)
    requires |w.held| == |w.s.threads|
  {
    forall t :: 0 <= t < |w.held| && (w.s.threads[t].Started? || w.s.threads[t].Looping?) && w.s.threads[t].op.Inc? ==>
      w.held[t] > 0
  }

  ghost predicate HoldersOk(start: nat, w: World) {
    && |w.held| == |w.s.threads|
    && Linearized(start, w.s) && AcquiresHeld(w) && !w.s.aborted && AllPositive(start, w.s.log)
    && (w.s.count == REFCOUNT_MAX || w.s.count == References(w))
    && Zeros(w.s.log) == (if w.s.count == 0 then 1 else 0)
    && (w.s.count == 0 ==> w.s.log != [] && w.s.log[|w.s.log| - 1].result && w.s.log[|w.s.log| - 1].op == Dec)
  }

  lemma {:induction false} SumUpdate(s: seq<nat>, t: nat, n: nat)
    requires t < |s|
    ensures Sum(s[t := n]) == Sum(s) - s[t] + n
    decreases |s|
  {
    var last := |s| - 1;
    if t == last {
      assert s[t := n][..last] == s[..last];
    } else {
      assert s[t := n][..last] == s[..last][t := n];
      SumUpdate(s[..last], t, n);
    }
  }

  lemma {:induction false} SumBounds(s: seq<nat>, t: nat)
    requires t < |s|
    ensures s[t] <= Sum(s)
    decreases |s|
  {
    if t < |s| - 1 {
      SumBounds(s[..|s| - 1], t);
    }
  }

  lemma {:induction false} SumZeros(s: seq<nat>)
    requires forall t :: 0 <= t < |s| ==> s[t] == 0
    ensures Sum(s) == 0
    decreases |s|
  {
    if s != [] {
      SumZeros(s[..|s| - 1]);
    }
  }

  lemma {:induction false} WeightsUpdate(threads: seq<Phase>, t: nat, p: Phase)
    requires t < |threads|
    ensures Sum(Weights(threads[t := p])) == Sum(Weights(threads)) - UnderWay(threads[t]) + UnderWay(p)
  {
    assert Weights(threads[t := p]) == Weights(threads)[t := UnderWay(p)];
    SumUpdate(Weights(threads), t, UnderWay(p));
  }

  /** A thread with an operation still to take effect keeps the count positive. */
  lemma {:induction false} CallerCounts(start: nat, w: World, t: nat)
    requires HoldersOk(start, w) && t < |w.held| && (w.s.threads[t].Started? || w.s.threads[t].Looping?)
    ensures w.s.count > 0
  {
    hide Sum, Weights, Linearized, AllPositive, Zeros;
    SumBounds(w.held, t);
    WeightAt(w.s.threads, t);
  }

  lemma {:induction false} WeightAt(threads: seq<Phase>, t: nat)
    requires t < |threads|
    ensures UnderWay(threads[t]) <= Sum(Weights(threads))
  {
    SumBounds(Weights(threads), t);
  }

  lemma {:induction false} OneMorePositive(start: nat, log: seq<Entry>, e: Entry)
    requires AllPositive(start, log) && Replay(start, log).Some? && Replay(start, log).value > 0
    ensures AllPositive(start, log + [e])
  {
    hide Replay;
    forall i | 0 <= i < |log| + 1
      ensures (log + [e])[..i] == if i < |log| then log[..i] else log
    {
    }
  }

  lemma {:induction false} OneMoreZero(log: seq<Entry>, e: Entry)
    ensures Zeros(log + [e]) == Zeros(log) + (if e.result then 1 else 0)
  {
    assert (log + [e])[..|log|] == log;
  }

  /** Looking at the count again: nothing but an operation on a saturated count takes effect. */
  lemma {:induction false} LookedHeld(start: nat, w: World, t: nat)
    requires HoldersOk(start, w) && t < |w.held| && (w.s.threads[t].Started? || w.s.threads[t].Looping?)
    ensures HoldersOk(start, w.(s := Looked(w.s, t, w.s.threads[t].op, w.s.threads[t].since)))
  {
    hide Sum, Weights, Replay, Zeros, AllPositive;
    var p := w.s.threads[t];
    CallerCounts(start, w, t);
    assert PhaseOk(p, t, w.s.log);
    LookedLinearized(start, w.s, t, p.op, p.since);
    if w.s.count == REFCOUNT_MAX {
      OneMorePositive(start, w.s.log, Entry(t, p.op, false));
      OneMoreZero(w.s.log, Entry(t, p.op, false));
    } else {
      WeightsUpdate(w.s.threads, t, Looping(p.op, p.since, w.s.count));
    }
  }

  lemma {:induction false} SwapHeld(start: nat, w: World, t: nat)
    requires HoldersOk(start, w) && t < |w.held| && w.s.threads[t].Looping? && w.s.count == w.s.threads[t].expected
    ensures HoldersOk(start, HolderStep(w, Act(CompareAndSwap(t, false))))
  {
    hide Sum, Weights, Replay, Zeros, AllPositive;
    var p := w.s.threads[t];
    CallerCounts(start, w, t);
    assert PhaseOk(p, t, w.s.log);
    StepLinearized(start, w.s, CompareAndSwap(t, false));
    var c := if p.op.Inc? then p.expected + 1 else p.expected - 1;
    var result := p.op.Dec? && c == 0;
    OneMorePositive(start, w.s.log, Entry(t, p.op, result));
    OneMoreZero(w.s.log, Entry(t, p.op, result));
    WeightsUpdate(w.s.threads, t, Done(p.op, p.since, |w.s.log|, result));
  }

  lemma {:induction false} CallHeld(start: nat, w: World, a: Action)
    requires HoldersOk(start, w) && (a.Begin? || a.Return?) && Disciplined(w, Act(a))
    ensures HoldersOk(start, HolderStep(w, Act(a)))
  {
    hide Sum, Weights, Replay, Zeros, AllPositive;
    StepLinearized(start, w.s, a);
    match a
    case Begin(t, op) =>
      WeightsUpdate(w.s.threads, t, Started(op, |w.s.log|));
      if op.Dec? {
        SumUpdate(w.held, t, w.held[t] - 1);
      }
    case Return(t) =>
      if t < |w.held| && w.s.threads[t].Done? {
        WeightsUpdate(w.s.threads, t, Idle);
        if w.s.threads[t].op.Inc? {
          SumUpdate(w.held, t, w.held[t] + 1);
        }
      }
  }

  lemma {:induction false} GiveHeld(start: nat, w: World, from: nat, to: nat)
    requires HoldersOk(start, w) && Disciplined(w, Give(from, to))
    ensures HoldersOk(start, HolderStep(w, Give(from, to)))
  {
    hide Sum, Weights, Linearized, Zeros, AllPositive;
    SumUpdate(w.held, from, w.held[from] - 1);
    var less := w.held[from := w.held[from] - 1];
    SumUpdate(less, to, less[to] + 1);
  }

  lemma {:induction false} HolderStepOk(start: nat, w: World, m: Move)
    requires HoldersOk(start, w)
    ensures HoldersOk(start, HolderStep(w, m))
  {
    hide HoldersOk, Looked;
    HoldersShape(start, w);
    if Disciplined(w, m) {
      match m
      case Act(Begin(t, op)) => CallHeld(start, w, m.a);
      case Act(Return(t)) => CallHeld(start, w, m.a);
      case Act(Load(t)) =>
        if t < |w.held| && w.s.threads[t].Started? {
          LookedHeld(start, w, t);
        }
      case Act(CompareAndSwap(t, spurious)) =>
        if t < |w.held| && w.s.threads[t].Looping? {
          if w.s.count == w.s.threads[t].expected && !spurious {
            SwapHeld(start, w, t);
          } else {
            LookedHeld(start, w, t);
          }
        }
      case Give(from, to) => GiveHeld(start, w, from, to);
    }
  }

  lemma {:induction false} HoldersShape(start: nat, w: World)
    requires HoldersOk(start, w)
    ensures |w.held| == |w.s.threads| && !w.s.aborted
  {
  }

  lemma {:induction false} InitialHeld(held: seq<nat>)
    requires 0 < Sum(held) <= REFCOUNT_MAX
    ensures HoldersOk(Sum(held), World(Initial(Sum(held), |held|), held))
  {
    hide Sum;
    InitialIsLinearized(Sum(held), |held|);
    SumZeros(Weights(Initial(Sum(held), |held|).threads));
  }

  lemma {:induction false} HolderRunOk(held: seq<nat>, moves: seq<Move>)
    requires 0 < Sum(held) <= REFCOUNT_MAX
    ensures HoldersOk(Sum(held), HolderRun(held, moves))
  {
    hide HoldersOk, HolderStep;
    if moves == [] {
      InitialHeld(held);
    } else {
      HolderRunOk(held, moves[..|moves| - 1]);
      HolderStepOk(Sum(held), HolderRun(held, moves[..|moves| - 1]), moves[|moves| - 1]);
    }
  }

  /** Threads that begin calls only with a reference in hand, in any interleaving and with any
      spurious failures: the program never aborts, every operation takes effect at a positive
      count, and the count is saturated or the number of references held and under way. It has
      reached zero exactly when one release has returned 1, and that release is the last
      operation of all. */
  lemma {:induction false} CountsReferences(held: seq<nat>, moves: seq<Move>)
    requires 0 < Sum(held) <= 0xffff_ffff
    ensures var w := HolderRun(held, moves);
            && !w.s.aborted && AllPositive(Sum(held), w.s.log)
            && Replay(Sum(held), w.s.log) == Some(w.s.count)
            && (w.s.count == 0xffff_ffff || w.s.count == References(w))
            && Zeros(w.s.log) == (if w.s.count == 0 then 1 else 0)
            && (w.s.count == 0 ==> w.s.log[|w.s.log| - 1].result && w.s.log[|w.s.log| - 1].op == Dec)
  {
    hide HolderRun, Sum, Weights, Zeros, AllPositive;
    HolderRunOk(held, moves);
  }

  /** When every reference has been given up and every call has returned, exactly one release
      has returned 1, unless the count saturated: then none has. */
  lemma {:induction false} LastReleaseFrees(held: seq<nat>, moves: seq<Move>)
    requires 0 < Sum(held) <= 0xffff_ffff
    requires var w := HolderRun(held, moves); forall t :: 0 <= t < |w.held| ==> w.held[t] == 0 && w.s.threads[t].Idle?
    ensures var w := HolderRun(held, moves);
            if w.s.count == 0xffff_ffff then Zeros(w.s.log) == 0 else w.s.count == 0 && Zeros(w.s.log) == 1
  {
    hide HolderRun, Sum, Zeros;
    CountsReferences(held, moves);
    var w := HolderRun(held, moves);
    SumZeros(w.held);
    SumZeros(Weights(w.s.threads));
  }

  /** Once saturated, the count never changes again and no release returns 1. */
  lemma {:induction false} SaturationIsForever(start: nat, log: seq<Entry>, n: nat)
    requires n <= |log| && Replay(start, log).Some? && Replay(start, log[..n]) == Some(0xffff_ffff)
    ensures Replay(start, log) == Some(0xffff_ffff)
    ensures forall i :: n <= i < |log| ==> !log[i].result
    decreases |log|
  {
    if n == |log| {
      assert log[..n] == log;
    } else {
      var before := log[..|log| - 1];
      assert before[..n] == log[..n];
      SaturationIsForever(start, before, n);
      forall i | n <= i < |log|
        ensures !log[i].result
      {
        if i < |before| {
          assert before[i] == log[i];
        }
      }
    }
  }
}
