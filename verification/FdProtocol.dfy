/** The one-time file descriptor: any number of threads, one atomic cell, a futex. Each atomic access,
    system call and return is a step of its own; a run is any interleaving. */
module FdProtocol {

  type Thread = nat

  const UNINIT: int := -1
  const ONGOING: int := -2

  datatype Outcome = Fd(fd: int) | OpenError

  datatype Pc =
    | Idle                        // not in a call yet
    | Load                        // about to load FD in the loop
    | Cas                         // saw UNINIT, about to compare-and-exchange
    | AboutToWait                 // saw ONGOING, about to enter the futex wait
    | Sleeping                    // inside the futex wait
    | Opening                     // won the exchange, opening the file
    | Storing(res: Outcome)       // open returned, about to store FD
    | Waking(res: Outcome)        // stored FD, about to wake the sleepers
    | Returned(res: Outcome)      // out of the call; may call again

  /** `made` is history: the descriptors successful opens have produced, in order. */
  datatype State = State(fd: int, pcs: map<Thread, Pc>, made: seq<int>)

  const INIT := State(UNINIT, map[], [])

  datatype Step =
    | Enter(t: Thread)                    // fast path: load FD, use it if it is a descriptor
    | LoadFd(t: Thread)
    | Exchange(t: Thread, spurious: bool) // the weak exchange may fail for no reason
    | Wait(t: Thread)                     // the kernel compares FD and sleeps in one step
    | SpuriousWake(t: Thread)
    | OpenFile(t: Thread, res: Outcome)
    | Store(t: Thread)
    | Wake(t: Thread)

  function At(s: State, t: Thread): Pc {
    if t in s.pcs then s.pcs[t] else Idle
  }

  function Move(s: State, t: Thread, pc: Pc): State {
    s.(pcs := s.pcs[t := pc])
  }

  /** `FUTEX_WAKE` with no limit: every sleeper goes back to the loop. */
  function WakeAll(s: State): State {
    s.(pcs := map t | t in s.pcs :: if s.pcs[t].Sleeping? then Load else s.pcs[t])
  }

  predicate Enabled(s: State, step: Step) {
    match step
    case Enter(t) => At(s, t).Idle? || At(s, t).Returned?
    case LoadFd(t) => At(s, t).Load?
    case Exchange(t, _) => At(s, t).Cas?
    case Wait(t) => At(s, t).AboutToWait?
    case SpuriousWake(t) => At(s, t).Sleeping?
    case OpenFile(t, res) => At(s, t).Opening? && (res.Fd? ==> res.fd >= 0)
    case Store(t) => At(s, t).Storing?
    case Wake(t) => At(s, t).Waking?
  }

  function Next(s: State, step: Step): State
    requires Enabled(s, step)
  {
    match step
    case Enter(t) => Move(s, t, if s.fd == UNINIT || s.fd == ONGOING then Load else Returned(Fd(s.fd)))
    case LoadFd(t) =>
      Move(s, t, if s.fd == UNINIT then Cas else if s.fd == ONGOING then AboutToWait else Returned(Fd(s.fd)))
    case Exchange(t, spurious) =>
      if s.fd == UNINIT && !spurious then Move(s, t, Opening).(fd := ONGOING) else Move(s, t, Load)
    case Wait(t) => Move(s, t, if s.fd == ONGOING then Sleeping else Load)
    case SpuriousWake(t) => Move(s, t, Load)
    case OpenFile(t, res) => Move(s, t, Storing(res)).(made := if res.Fd? then s.made + [res.fd] else s.made)
    case Store(t) =>
      var res := At(s, t).res;
      Move(s, t, Waking(res)).(fd := if res.Fd? then res.fd else UNINIT)
    case Wake(t) => WakeAll(Move(s, t, Returned(At(s, t).res)))
  }

  // ------------------------------------------------------------- invariant

  predicate Owns(pc: Pc) {
    pc.Opening? || pc.Storing?
  }

  /** The threads own up to what the cell says, one at a time. */
  ghost predicate OwnerInv(s: State) {
    && (s.fd == ONGOING <==> exists t :: Owns(At(s, t)))
    && (forall t, u | Owns(At(s, t)) && Owns(At(s, u)) :: t == u)
  }

  /** A descriptor some thread is about to publish, or has published. */
  ghost predicate Published(s: State, t: Thread) {
    match At(s, t)
    case Storing(Fd(f)) => f >= 0 && s.made == [f]
    case Waking(Fd(f)) => f >= 0 && s.fd == f
    case Returned(Fd(f)) => f >= 0 && s.fd == f
    case _ => true
  }

  /** One descriptor at most is ever made, and it is the one in the cell once it gets there. */
  ghost predicate FdInv(s: State) {
    && (s.fd == UNINIT || s.fd == ONGOING || s.fd >= 0)
    && (s.fd >= 0 ==> s.made == [s.fd])
    && |s.made| <= 1
    && (s.made != [] && s.fd < 0 ==> exists t :: At(s, t) == Storing(Fd(s.made[0])))
    && (forall t :: Published(s, t))
  }

  /** Whoever sleeps, someone is on the way to wake them. */
  ghost predicate WakeInv(s: State) {
    (exists t :: At(s, t).Sleeping?) ==> s.fd == ONGOING || exists u :: At(s, u).Waking?
  }

  ghost predicate Inv(s: State) {
    OwnerInv(s) && FdInv(s) && WakeInv(s)
  }

  /** What a step does to the program counters: the actor moves, a wake also rouses sleepers. */
  lemma {:induction false} StepPcs(s: State, step: Step, t: Thread)
    requires Enabled(s, step)
    ensures t != step.t ==>
              At(Next(s, step), t) == (if step.Wake? && At(s, t).Sleeping? then Load else At(s, t))
    ensures At(Next(s, step), step.t) ==
      match step
      case Enter(_) => if s.fd == UNINIT || s.fd == ONGOING then Load else Returned(Fd(s.fd))
      case LoadFd(_) => if s.fd == UNINIT then Cas else if s.fd == ONGOING then AboutToWait else Returned(Fd(s.fd))
      case Exchange(_, spurious) => if s.fd == UNINIT && !spurious then Opening else Load
      case Wait(_) => if s.fd == ONGOING then Sleeping else Load
      case SpuriousWake(_) => Load
      case OpenFile(_, res) => Storing(res)
      case Store(_) => Waking(At(s, step.t).res)
      case Wake(_) => Returned(At(s, step.t).res)
  {
  }

  lemma {:induction false} OwnerStep(s: State, step: Step)
    requires Inv(s) && Enabled(s, step)
    ensures OwnerInv(Next(s, step))
  {
    var n := Next(s, step);
    forall t
      ensures Owns(At(n, t)) <==> (if t == step.t then Owns(At(n, t)) else Owns(At(s, t)))
    {
      StepPcs(s, step, t);
    }
    StepPcs(s, step, step.t);
    assert Published(s, step.t);
    if s.fd == ONGOING {
      var h :| Owns(At(s, h));
      StepPcs(s, step, h);
    }
  }

  lemma {:induction false} FdStep(s: State, step: Step)
    requires Inv(s) && Enabled(s, step)
    ensures FdInv(Next(s, step))
  {
    var n := Next(s, step);
    assert Published(s, step.t);
    StepPcs(s, step, step.t);
    if s.made != [] && s.fd < 0 {
      var h :| At(s, h) == Storing(Fd(s.made[0]));
      assert Owns(At(s, h));
      StepPcs(s, step, h);
    }
    forall t
      ensures Published(n, t)
    {
      assert Published(s, t);
      StepPcs(s, step, t);
    }
  }

  lemma {:induction false} WakeStep(s: State, step: Step)
    requires Inv(s) && Enabled(s, step)
    ensures WakeInv(Next(s, step))
  {
    var n := Next(s, step);
    StepPcs(s, step, step.t);
    if t :| At(n, t).Sleeping? {
      StepPcs(s, step, t);
      if s.fd != ONGOING {
        var u :| At(s, u).Waking?;
        StepPcs(s, step, u);
      }
    }
  }

  /** What every step keeps. */
  lemma {:induction false} InvStep(s: State, step: Step)
    requires Inv(s) && Enabled(s, step)
    ensures Inv(Next(s, step))
  {
    OwnerStep(s, step);
    FdStep(s, step);
    WakeStep(s, step);
  }

  // ------------------------------------------------------------------ runs

  ghost predicate Run(states: seq<State>, steps: seq<Step>) {
    && |states| == |steps| + 1
    && states[0] == INIT
    && forall i | 0 <= i < |steps| :: Enabled(states[i], steps[i]) && states[i + 1] == Next(states[i], steps[i])
  }

  /** The invariant holds throughout every run, of any number of threads. */
  lemma {:induction false} RunInv(states: seq<State>, steps: seq<Step>, i: nat)
    requires Run(states, steps) && i < |states|
    ensures Inv(states[i])
  {
    hide Inv, Enabled, Next;
    if i == 0 {
      InitInv();
    } else {
      RunInv(states, steps, i - 1);
      InvStep(states[i - 1], steps[i - 1]);
    }
  }

  lemma {:induction false} InitInv()
    ensures Inv(INIT)
  {
  }

  /** FD holds the ongoing marker exactly while one thread, and only one, owns initialization. */
  lemma {:induction false} OneOwner(states: seq<State>, steps: seq<Step>, i: nat)
    requires Run(states, steps) && i < |states|
    ensures states[i].fd == ONGOING <==>
            exists t :: Owns(At(states[i], t)) && forall u :: Owns(At(states[i], u)) ==> u == t
  {
    RunInv(states, steps, i);
    if states[i].fd == ONGOING {
      var t :| Owns(At(states[i], t));
      assert forall u :: Owns(At(states[i], u)) ==> u == t;
    }
  }

  /** A descriptor, once in the cell, stays there. */
  lemma {:induction false} FdStable(states: seq<State>, steps: seq<Step>, i: nat, j: nat)
    requires Run(states, steps) && i <= j < |states| && states[i].fd >= 0
    ensures states[j].fd == states[i].fd
    decreases j - i
  {
    if i == j {
    } else {
      FdStable(states, steps, i, j - 1);
      RunInv(states, steps, j - 1);
      var s, step := states[j - 1], steps[j - 1];
      if step.Store? {
        assert Owns(At(s, step.t));
      }
      assert states[j] == Next(s, step);
    }
  }

  /** All successful returns agree, whichever threads, calls and moments; and only one open has ever
      succeeded. */
  lemma {:induction false} ReturnsAgree(states: seq<State>, steps: seq<Step>, i: nat, j: nat, t: Thread, u: Thread)
    requires Run(states, steps) && i <= j < |states|
    requires At(states[i], t).Returned? && At(states[i], t).res.Fd?
    requires At(states[j], u).Returned? && At(states[j], u).res.Fd?
    ensures At(states[i], t).res == At(states[j], u).res
    ensures 0 <= At(states[i], t).res.fd
    ensures states[j].made == [At(states[j], u).res.fd]
  {
    hide Run;
    RunInv(states, steps, i);
    RunInv(states, steps, j);
    assert Published(states[i], t) && Published(states[j], u);
    FdStable(states, steps, i, j);
  }

  /** A failed open leaves the cell uninitialised, unowned, and nothing made: the next caller starts
      over. */
  lemma {:induction false} FailedOpenRollsBack(states: seq<State>, steps: seq<Step>, i: nat)
    requires Run(states, steps) && i < |steps|
    requires steps[i].Store? && At(states[i], steps[i].t) == Storing(OpenError)
    ensures var next := states[i + 1];
      next.fd == UNINIT && next.made == [] && forall t :: !Owns(At(next, t))
  {
    var s, me := states[i], steps[i].t;
    RunInv(states, steps, i);
    RunInv(states, steps, i + 1);
    assert Owns(At(s, me));
    if s.made != [] {
      var h :| At(s, h) == Storing(Fd(s.made[0]));
      assert Owns(At(s, h));
    }
  }

  /** A thread's own steps from where it is to the end of a wake; `res` is what an open gives it. */
  function Finishing(t: Thread, pc: Pc, res: Outcome): seq<Step> {
    match pc
    case Opening => [OpenFile(t, res), Store(t), Wake(t)]
    case Storing(_) => [Store(t), Wake(t)]
    case _ => [Wake(t)]
  }

  /** Run a schedule from a state, if every step of it is enabled in turn. */
  function Follow(s: State, steps: seq<Step>): (r: seq<State>)
    ensures |r| <= |steps| + 1 && r != [] && r[0] == s
    decreases |steps|
  {
    if steps == [] || !Enabled(s, steps[0]) then [s] else [s] + Follow(Next(s, steps[0]), steps[1..])
  }

  lemma {:induction false} WakerFound(s: State, sleeper: Thread) returns (waker: Thread)
    requires Inv(s) && At(s, sleeper).Sleeping?
    ensures waker != sleeper && (Owns(At(s, waker)) || At(s, waker).Waking?)
  {
    if s.fd == ONGOING {
      waker :| Owns(At(s, waker));
    } else {
      waker :| At(s, waker).Waking?;
    }
  }

  /** No lost wakeup: while anyone sleeps, some other thread, awake, is opening, storing or about to
      wake, even when a failed initializer's wake overlaps a new owner; and that thread's own next
      steps, at most three, wake every sleeper whatever the open returns. */
  lemma {:induction false} NoLostWakeup(states: seq<State>, steps: seq<Step>, i: nat, sleeper: Thread, res: Outcome)
    returns (waker: Thread)
    requires res.Fd? ==> res.fd >= 0
    requires Run(states, steps) && i < |states| && At(states[i], sleeper).Sleeping?
    ensures waker != sleeper
    ensures Owns(At(states[i], waker)) || At(states[i], waker).Waking?
    ensures var path := Finishing(waker, At(states[i], waker), res);
      && |path| <= 3
      && |Follow(states[i], path)| == |path| + 1
      && forall t :: !At(Follow(states[i], path)[|path|], t).Sleeping?
  {
    hide Run;
    var s := states[i];
    RunInv(states, steps, i);
    waker := WakerFound(s, sleeper);
    WakeFinishes(s, waker, res);
  }

  lemma {:induction false} FollowOne(s: State, step: Step, steps: seq<Step>)
    requires Enabled(s, step)
    ensures Follow(s, [step] + steps) == [s] + Follow(Next(s, step), steps)
  {
    assert ([step] + steps)[1..] == steps;
  }

  lemma {:induction false} WakeFinishes(s: State, t: Thread, res: Outcome)
    requires Owns(At(s, t)) || At(s, t).Waking?
    requires res.Fd? ==> res.fd >= 0
    ensures var path := Finishing(t, At(s, t), res);
      && |Follow(s, path)| == |path| + 1
      && forall u :: !At(Follow(s, path)[|path|], u).Sleeping?
    decreases if At(s, t).Opening? then 2 else if At(s, t).Storing? then 1 else 0
  {
    hide Follow;
    match At(s, t) {
      case Waking(_) =>
        FollowOne(s, Wake(t), []);
        assert [Wake(t)] == [Wake(t)] + [];
        FollowNone(Next(s, Wake(t)));
        forall u
          ensures !At(Next(s, Wake(t)), u).Sleeping?
        {
          StepPcs(s, Wake(t), u);
        }
      case Storing(_) =>
        StepPcs(s, Store(t), t);
        FollowOne(s, Store(t), [Wake(t)]);
        assert [Store(t), Wake(t)] == [Store(t)] + [Wake(t)];
        WakeFinishes(Next(s, Store(t)), t, res);
      case Opening =>
        StepPcs(s, OpenFile(t, res), t);
        FollowOne(s, OpenFile(t, res), [Store(t), Wake(t)]);
        assert [OpenFile(t, res), Store(t), Wake(t)] == [OpenFile(t, res)] + [Store(t), Wake(t)];
        WakeFinishes(Next(s, OpenFile(t, res)), t, res);
    }
  }

  lemma {:induction false} FollowNone(s: State)
    ensures Follow(s, []) == [s]
  {
  }

  // ---------------------------------------------------- wakeups under interleaving

  /** How many steps of its own a thread is away from having woken the sleepers, if it is on its way. */
  function Remaining(pc: Pc): nat {
    match pc
    case Opening => 3
    case Storing(_) => 2
    case Waking(_) => 1
    case _ => 0
  }

  /** How many of the steps are this thread's. */
  function OwnSteps(steps: seq<Step>, t: Thread): nat {
    if steps == [] then 0
    else OwnSteps(steps[..|steps| - 1], t) + if steps[|steps| - 1].t == t then 1 else 0
  }

  /** A thread on its way stays on its way: others cannot disturb it, and each step of its own brings
      it one closer, until it wakes everyone. */
  lemma {:induction false} WakerStep(s: State, step: Step, waker: Thread, sleeper: Thread)
    requires Enabled(s, step) && At(s, sleeper).Sleeping? && Remaining(At(s, waker)) > 0
    ensures var left := Remaining(At(Next(s, step), waker));
      if step.t != waker then left == Remaining(At(s, waker))
      else if step.Wake? then !At(Next(s, step), sleeper).Sleeping?
      else left == Remaining(At(s, waker)) - 1 && left > 0
    ensures step.Wake? ==> !At(Next(s, step), sleeper).Sleeping?
  {
    StepPcs(s, step, waker);
    StepPcs(s, step, sleeper);
  }

  /** About to take a step towards waking the sleepers, and free to take it, whatever an open gives. */
  ghost predicate OnItsWay(s: State, t: Thread) {
    && Remaining(At(s, t)) > 0
    && forall res: Outcome | res.Fd? ==> res.fd >= 0 :: Enabled(s, Finishing(t, At(s, t), res)[0])
  }

  lemma {:induction false} WakerFree(s: State, t: Thread)
    requires Remaining(At(s, t)) > 0
    ensures OnItsWay(s, t)
  {
  }

  /** No lost wakeup, whatever the other threads do in between: as long as a thread sleeps on, nobody
      wakes anybody, one and the same other thread is on its way to, its next step is enabled all the
      time, and it has taken fewer than three. */
  lemma {:induction false} WokenInThree(states: seq<State>, steps: seq<Step>, i: nat, j: nat, sleeper: Thread)
    returns (waker: Thread)
    requires Run(states, steps) && i <= j < |states|
    requires forall k | i <= k <= j :: At(states[k], sleeper).Sleeping?
    ensures waker != sleeper
    ensures forall k | i <= k < j :: !steps[k].Wake?
    ensures forall k | i <= k <= j :: OnItsWay(states[k], waker)
    ensures OwnSteps(steps[i..j], waker) + Remaining(At(states[j], waker)) == Remaining(At(states[i], waker)) <= 3
    decreases j
  {
    hide Inv, Enabled, Next, At, OnItsWay;
    if i == j {
      RunInv(states, steps, i);
      waker := WakerFound(states[i], sleeper);
    } else {
      waker := WokenInThree(states, steps, i, j - 1, sleeper);
      assert OnItsWay(states[j - 1], waker);
      WakerLeft(states[j - 1], waker);
      assert At(states[j - 1], sleeper).Sleeping? && At(states[j], sleeper).Sleeping?;
      WakerStep(states[j - 1], steps[j - 1], waker, sleeper);
      assert steps[i..j][..j - 1 - i] == steps[i..j - 1];
    }
    WakerFree(states[j], waker);
  }

  lemma {:induction false} WakerLeft(s: State, t: Thread)
    requires OnItsWay(s, t)
    ensures Remaining(At(s, t)) > 0
  {
  }

  // ---------------------------------------------------------------- progress

  predicate InCall(pc: Pc) {
    !pc.Idle? && !pc.Returned?
  }

  /** These steps lead from the one state to the other, each enabled in its turn. */
  predicate Reaches(s: State, steps: seq<Step>, end: State)
    decreases |steps|
  {
    if steps == [] then s == end
    else Enabled(s, steps[0]) && Reaches(Next(s, steps[0]), steps[1..], end)
  }

  /** The step a thread in a call takes when left to itself: no spurious failure, and an open ends in `res`. */
  function OwnStep(t: Thread, pc: Pc, res: Outcome): Step {
    match pc
    case Cas => Exchange(t, false)
    case AboutToWait => Wait(t)
    case Opening => OpenFile(t, res)
    case Storing(_) => Store(t)
    case Waking(_) => Wake(t)
    case _ => LoadFd(t)
  }

  /** How many steps of its own a thread is away from returning, nobody else being in its way. */
  function ToReturn(fd: int, pc: Pc): nat {
    match pc
    case Load => if fd == UNINIT then 5 else 1
    case Cas => if fd == UNINIT then 4 else 2
    case AboutToWait => if fd == UNINIT then 6 else 2
    case _ => Remaining(pc)
  }

  /** Nobody else owns the cell, and the thread is not asleep: it can go on alone. */
  predicate CanGoOn(s: State, t: Thread) {
    InCall(At(s, t)) && !At(s, t).Sleeping? && (s.fd == ONGOING ==> Owns(At(s, t)))
  }

  /** What a call comes to: the failure of this thread's own open, if it had failed already; else the
      descriptor in the cell, or the outcome of the open it has yet to make. */
  function Verdict(s: State, t: Thread, res: Outcome): Outcome {
    match At(s, t)
    case Storing(own) => own
    case Waking(own) => own
    case _ => if s.fd >= 0 then Fd(s.fd) else res
  }

  lemma {:induction false} OneOwnStep(s: State, t: Thread, res: Outcome)
    requires Inv(s) && CanGoOn(s, t) && (res.Fd? ==> res.fd >= 0)
    ensures var step := OwnStep(t, At(s, t), res);
      && Enabled(s, step)
      && var next := Next(s, step);
      && Inv(next)
      && (if ToReturn(s.fd, At(s, t)) == 1
          then At(next, t) == Returned(Verdict(s, t, res)) && next.fd == s.fd
          else CanGoOn(next, t) && ToReturn(next.fd, At(next, t)) == ToReturn(s.fd, At(s, t)) - 1
               && Verdict(next, t, res) == Verdict(s, t, res))
  {
    var step := OwnStep(t, At(s, t), res);
    assert Published(s, t);
    InvStep(s, step);
    StepPcs(s, step, t);
    hide OwnerInv, WakeInv;
  }

  /** A thread that can go on returns, alone, after exactly that many steps; and a descriptor it returns is
      the one in the cell. */
  lemma {:induction false} AloneReturns(s: State, t: Thread, res: Outcome) returns (path: seq<Step>, end: State)
    requires Inv(s) && CanGoOn(s, t) && (res.Fd? ==> res.fd >= 0)
    ensures |path| == ToReturn(s.fd, At(s, t)) <= 6 && forall step | step in path :: step.t == t
    ensures Reaches(s, path, end) && Inv(end)
    ensures At(end, t) == Returned(Verdict(s, t, res))
    ensures Verdict(s, t, res).Fd? ==> end.fd == Verdict(s, t, res).fd
    decreases ToReturn(s.fd, At(s, t))
  {
    hide Inv, Enabled, Next, CanGoOn, Verdict, At, ToReturn;
    var step := OwnStep(t, At(s, t), res);
    OneOwnStep(s, t, res);
    ToReturnBounds(s, t);
    var next := Next(s, step);
    if ToReturn(s.fd, At(s, t)) == 1 {
      path, end := [step], next;
      assert path[1..] == [];
      if Verdict(s, t, res).Fd? { ReturnedFd(end, t); }
    } else {
      var rest;
      rest, end := AloneReturns(next, t, res);
      path := [step] + rest;
      assert path[1..] == rest;
    }
  }

  lemma {:induction false} ToReturnBounds(s: State, t: Thread)
    requires CanGoOn(s, t)
    ensures 1 <= ToReturn(s.fd, At(s, t)) <= 6
  {
  }

  lemma {:induction false} ReturnedFd(s: State, t: Thread)
    requires Inv(s) && At(s, t).Returned? && At(s, t).res.Fd?
    ensures s.fd == At(s, t).res.fd
  {
    assert Published(s, t);
  }

  /** Somebody else is in the way of a thread in a call: the owner of the cell, or, if the thread is asleep
      though the cell is free, whoever is about to wake it. At most three steps of theirs clear the way. */
  lemma {:induction false} WayCleared(s: State, t: Thread, res: Outcome) returns (path: seq<Step>, end: State)
    requires Inv(s) && InCall(At(s, t)) && (res.Fd? ==> res.fd >= 0)
    ensures |path| <= 3 && forall a, b | a in path && b in path :: a.t == b.t != t
    ensures Reaches(s, path, end) && Inv(end) && CanGoOn(end, t)
    ensures s.fd >= 0 ==> end.fd == s.fd
    ensures At(end, t) == if At(s, t).Sleeping? then Load else At(s, t)
  {
    if CanGoOn(s, t) {
      path, end := [], s;
    } else {
      var other: Thread;
      if s.fd == ONGOING {
        other :| Owns(At(s, other));
      } else {
        other := WakerFound(s, t);
      }
      path, end := WakerClears(s, t, other, res);
    }
  }

  /** A thread on its way to waking everyone, run alone to its end. */
  lemma {:induction false} WakerClears(s: State, t: Thread, other: Thread, res: Outcome)
    returns (path: seq<Step>, end: State)
    requires Inv(s) && InCall(At(s, t)) && other != t && (res.Fd? ==> res.fd >= 0)
    requires Remaining(At(s, other)) > 0
    requires s.fd == ONGOING ==> Owns(At(s, other))
    ensures |path| == Remaining(At(s, other)) && forall a | a in path :: a.t == other
    ensures Reaches(s, path, end) && Inv(end) && CanGoOn(end, t)
    ensures s.fd >= 0 ==> end.fd == s.fd
    ensures At(end, t) == if At(s, t).Sleeping? then Load else At(s, t)
    decreases Remaining(At(s, other))
  {
    var step := OwnStep(other, At(s, other), res);
    var next := Next(s, step);
    WakerClearsStep(s, t, other, res);
    hide Inv, Enabled, Next, CanGoOn, At, Remaining;
    if step.Wake? {
      path, end := [step], next;
      assert path[1..] == [];
    } else {
      var rest;
      rest, end := WakerClears(next, t, other, res);
      path := [step] + rest;
      assert path[1..] == rest;
    }
  }

  lemma {:induction false} WakerClearsStep(s: State, t: Thread, other: Thread, res: Outcome)
    requires Inv(s) && InCall(At(s, t)) && other != t && (res.Fd? ==> res.fd >= 0)
    requires Remaining(At(s, other)) > 0
    requires s.fd == ONGOING ==> Owns(At(s, other))
    ensures var step := OwnStep(other, At(s, other), res);
      && Enabled(s, step)
      && var next := Next(s, step);
      && Inv(next) && step.t == other
      && (s.fd >= 0 ==> next.fd == s.fd)
      && (if step.Wake? then
            && Remaining(At(s, other)) == 1 && CanGoOn(next, t)
            && At(next, t) == (if At(s, t).Sleeping? then Load else At(s, t))
          else
            && At(next, t) == At(s, t)
            && Remaining(At(next, other)) == Remaining(At(s, other)) - 1 > 0
            && (next.fd == ONGOING ==> Owns(At(next, other))))
  {
    var step := OwnStep(other, At(s, other), res);
    assert Published(s, other);
    InvStep(s, step);
    StepPcs(s, step, t);
    StepPcs(s, step, other);
    hide OwnerInv, WakeInv;
  }

  /** Progress: wherever a run may be, a thread in a call can be brought to return. At most three steps of
      one other thread clear the way, then at most six of its own do; and if opens succeed, it returns the
      descriptor in the cell, unless its own open had failed before. */
  lemma {:induction false} Progress(states: seq<State>, steps: seq<Step>, i: nat, t: Thread, res: Outcome)
    returns (theirs: seq<Step>, own: seq<Step>, mid: State, end: State)
    requires Run(states, steps) && i < |states| && InCall(At(states[i], t)) && (res.Fd? ==> res.fd >= 0)
    ensures |theirs| <= 3 && forall a, b | a in theirs && b in theirs :: a.t == b.t != t
    ensures 1 <= |own| <= 6 && forall a | a in own :: a.t == t
    ensures Reaches(states[i], theirs, mid) && Reaches(mid, own, end)
    ensures At(end, t).Returned?
    ensures At(end, t).res.Fd? ==> end.fd == At(end, t).res.fd
    ensures res.Fd? && At(states[i], t) != Storing(OpenError) && At(states[i], t) != Waking(OpenError) ==>
              At(end, t).res.Fd?
  {
    hide Run;
    RunInv(states, steps, i);
    theirs, mid := WayCleared(states[i], t, res);
    own, end := AloneReturns(mid, t, res);
    ToReturnBounds(mid, t);
  }

  /** A thread that finds the cell uninitialised can open the file itself: five steps of its own, and it
      returns its descriptor, published. */
  lemma {:induction false} FirstOpen(s: State, t: Thread, f: int) returns (path: seq<Step>, end: State)
    requires Inv(s) && s.fd == UNINIT && At(s, t).Load? && f >= 0
    ensures path == [LoadFd(t), Exchange(t, false), OpenFile(t, Fd(f)), Store(t), Wake(t)]
    ensures Reaches(s, path, end) && At(end, t) == Returned(Fd(f)) && end.fd == f
  {
    path := [LoadFd(t), Exchange(t, false), OpenFile(t, Fd(f)), Store(t), Wake(t)];
    var a := Next(s, LoadFd(t));
    var b := Next(a, Exchange(t, false));
    OpenAndTell(b, t, f);
    end := Next(Next(Next(b, OpenFile(t, Fd(f))), Store(t)), Wake(t));
    var rest := [OpenFile(t, Fd(f)), Store(t), Wake(t)];
    ReachStep(a, Exchange(t, false), rest, end);
    ReachStep(s, LoadFd(t), [Exchange(t, false)] + rest, end);
    hide Reaches;
    assert path == [LoadFd(t)] + ([Exchange(t, false)] + rest);
  }

  lemma {:induction false} OpenAndTell(s: State, t: Thread, f: int)
    requires At(s, t).Opening? && f >= 0
    ensures var end := Next(Next(Next(s, OpenFile(t, Fd(f))), Store(t)), Wake(t));
      && Reaches(s, [OpenFile(t, Fd(f)), Store(t), Wake(t)], end)
      && At(end, t) == Returned(Fd(f)) && end.fd == f
  {
    var c := Next(s, OpenFile(t, Fd(f)));
    var d := Next(c, Store(t));
    var end := Next(d, Wake(t));
    ReachStep(d, Wake(t), [], end);
    ReachStep(c, Store(t), [Wake(t)], end);
    ReachStep(s, OpenFile(t, Fd(f)), [Store(t), Wake(t)], end);
    hide Reaches;
    assert [Wake(t)] == [Wake(t)] + [] && [Store(t), Wake(t)] == [Store(t)] + [Wake(t)];
    assert [OpenFile(t, Fd(f)), Store(t), Wake(t)] == [OpenFile(t, Fd(f))] + [Store(t), Wake(t)];
  }

  lemma {:induction false} ReachStep(s: State, step: Step, rest: seq<Step>, end: State)
    ensures Enabled(s, step) && Reaches(Next(s, step), rest, end) ==> Reaches(s, [step] + rest, end)
  {
    assert ([step] + rest)[1..] == rest;
  }

  /** The states of one run of two threads, in order. */
  function Told(): seq<State> {
    [ State(-1, map[], []),
      State(-1, map[0 := Load], []),
      State(-1, map[0 := Cas], []),
      State(-1, map[0 := Load], []),
      State(-1, map[0 := Cas], []),
      State(-2, map[0 := Opening], []),
      State(-2, map[0 := Storing(OpenError)], []),
      State(-1, map[0 := Waking(OpenError)], []),
      State(-1, map[0 := Returned(OpenError)], []),
      State(-1, map[0 := Returned(OpenError), 1 := Load], []),
      State(-1, map[0 := Returned(OpenError), 1 := Cas], []),
      State(-2, map[0 := Returned(OpenError), 1 := Opening], []),
      State(-2, map[0 := Load, 1 := Opening], []),
      State(-2, map[0 := AboutToWait, 1 := Opening], []),
      State(-2, map[0 := Sleeping, 1 := Opening], []),
      State(-2, map[0 := Sleeping, 1 := Storing(Fd(7))], [7]),
      State(7, map[0 := Sleeping, 1 := Waking(Fd(7))], [7]),
      State(7, map[0 := Load, 1 := Returned(Fd(7))], [7]),
      State(7, map[0 := Returned(Fd(7)), 1 := Returned(Fd(7))], [7]),
      State(7, map[0 := Returned(Fd(7)), 1 := Returned(Fd(7)), 2 := Returned(Fd(7))], [7]) ]
  }

  function ToldSteps(): seq<Step> {
    [ Enter(0), LoadFd(0), Exchange(0, true), LoadFd(0), Exchange(0, false), OpenFile(0, OpenError), Store(0), Wake(0),
      Enter(1), LoadFd(1), Exchange(1, false), Enter(0), LoadFd(0), Wait(0), OpenFile(1, Fd(7)), Store(1), Wake(1),
      LoadFd(0), Enter(2) ]
  }

  /** A run told state by state: an exchange fails for no reason, an open fails and rolls back, the second
      thread opens while the first, calling again, sleeps; it is woken, both return, and a third takes the
      fast path. */
  lemma {:induction false} ToldRun()
    ensures Run(Told(), ToldSteps())
  {
    var states, steps := Told(), ToldSteps();
    forall i | 0 <= i < |steps|
      ensures Enabled(states[i], steps[i]) && states[i + 1] == Next(states[i], steps[i])
    {
      if i < 5 {
        ToldFirst(i);
      } else if i < 10 {
        ToldSecond(i);
      } else if i < 15 {
        ToldThird(i);
      } else {
        ToldFourth(i);
      }
    }
  }

  lemma {:induction false} ToldFirst(i: nat)
    requires i < 5
    ensures Enabled(Told()[i], ToldSteps()[i]) && Told()[i + 1] == Next(Told()[i], ToldSteps()[i])
  {
  }

  lemma {:induction false} ToldSecond(i: nat)
    requires 5 <= i < 10
    ensures Enabled(Told()[i], ToldSteps()[i]) && Told()[i + 1] == Next(Told()[i], ToldSteps()[i])
  {
  }

  lemma {:induction false} ToldThird(i: nat)
    requires 10 <= i < 15
    ensures Enabled(Told()[i], ToldSteps()[i]) && Told()[i + 1] == Next(Told()[i], ToldSteps()[i])
  {
  }

  lemma {:induction false} ToldFourth(i: nat)
    requires 15 <= i < 19
    ensures Enabled(Told()[i], ToldSteps()[i]) && Told()[i + 1] == Next(Told()[i], ToldSteps()[i])
  {
  }
}
