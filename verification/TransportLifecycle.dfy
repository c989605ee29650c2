/**
 The end of an adb transport: its output and input threads, any number of outside kickers, and the
 main thread that frees it, interleaved at every access to shared state.
 */
module TransportLifecycle {
  import opened Numbers

  datatype Event = KickStart | KickEnd | Closed | RemovalSent | Freed

  /** Where a transport thread stands; the names follow kick_transport and transport_unref. */
  datatype Pc =
    | Pumping                       // the data pump of output_thread or input_thread
    | KickCheck                     // the first, unlocked test of t->kicked
    | KickLock                      // about to take transport_lock
    | KickRead                      // reads t->kicked and sets it, holding the lock
    | KickUnlock(wasKicked: bool)   // releases the lock
    | KickCall                      // about to call t->kick
    | Kicking                       // inside t->kick
    | UnrefLock
    | UnrefDec
    | UnrefTest
    | UnrefKick                     // transport_unref finds the transport not kicked
    | UnrefKicking
    | CloseCall
    | RemoveCall
    | UnrefUnlock
    | Exited

  /** close_usb_devices, as run by any number of callers one after the other under the lock. */
  datatype KickerPc = Idle | Test | KickerKicking | Leave

  /** transport_registration_func: registers the transport, and later removes and frees it. */
  datatype MainPc = LinkLock | Link | LinkUnlock | Wait | UnlinkLock | Unlink | UnlinkUnlock | Free | Finished

  datatype Holder = Nobody | ByOutput | ByInput | ByKicker | ByMain

  /** What the threads share; `log` records what has happened. */
  datatype Shared = Shared(
    kicker: KickerPc,
    main: MainPc,
    lock: Holder,
    refCount: int,
    kicked: bool,
    listed: bool,
    mail: nat,
    log: seq<Event>)

  /** The output thread, the input thread and what they share. */
  datatype State = State(out: Pc, inp: Pc, sh: Shared)

  datatype Actor = Output | Input | Kicker | Main

  const INITIAL := State(Pumping, Pumping, Shared(Idle, LinkLock, Nobody, 2, false, false, 0, []))

  predicate ThreadEnabled(pc: Pc, sh: Shared) {
    !pc.Exited? && (pc.KickLock? || pc.UnrefLock? ==> sh.lock == Nobody)
  }

  predicate Enabled(st: State, who: Actor) {
    match who
    case Output => ThreadEnabled(st.out, st.sh)
    case Input => ThreadEnabled(st.inp, st.sh)
    case Kicker => st.sh.kicker == Idle ==> st.sh.lock == Nobody
    case Main => match st.sh.main
                 case LinkLock => st.sh.lock == Nobody
                 case UnlinkLock => st.sh.lock == Nobody
                 case Wait => st.sh.mail > 0
                 case Finished => false
                 case _ => true
  }

  /** One step of the thread `me`, which stands at `pc`. */
  function ThreadStep(me: Holder, pc: Pc, sh: Shared): (Pc, Shared) {
    match pc
    case Pumping => (KickCheck, sh)
    case KickCheck => (if sh.kicked then UnrefLock else KickLock, sh)
    case KickLock => (KickRead, sh.(lock := me))
    case KickRead => (KickUnlock(sh.kicked), sh.(kicked := true))
    case KickUnlock(wasKicked) => (if wasKicked then UnrefLock else KickCall, sh.(lock := Nobody))
    case KickCall => (Kicking, sh.(log := sh.log + [KickStart]))
    case Kicking => (UnrefLock, sh.(log := sh.log + [KickEnd]))
    case UnrefLock => (UnrefDec, sh.(lock := me))
    case UnrefDec => (UnrefTest, sh.(refCount := sh.refCount - 1))
    case UnrefTest => (if sh.refCount != 0 then UnrefUnlock else if sh.kicked then CloseCall else UnrefKick, sh)
    case UnrefKick => (UnrefKicking, sh.(kicked := true, log := sh.log + [KickStart]))
    case UnrefKicking => (CloseCall, sh.(log := sh.log + [KickEnd]))
    case CloseCall => (RemoveCall, sh.(log := sh.log + [Closed]))
    case RemoveCall => (UnrefUnlock, sh.(log := sh.log + [RemovalSent], mail := sh.mail + 1))
    case UnrefUnlock => (Exited, sh.(lock := Nobody))
    case Exited => (Exited, sh)
  }

  function KickerStep(sh: Shared): Shared {
    match sh.kicker
    case Idle => sh.(kicker := Test, lock := ByKicker)
    case Test =>
      if sh.listed && !sh.kicked then sh.(kicker := KickerKicking, kicked := true, log := sh.log + [KickStart])
      else sh.(kicker := Leave)
    case KickerKicking => sh.(kicker := Leave, log := sh.log + [KickEnd])
    case Leave => sh.(kicker := Idle, lock := Nobody)
  }

  function MainStep(sh: Shared): Shared {
    match sh.main
    case LinkLock => sh.(main := Link, lock := ByMain)
    case Link => sh.(main := LinkUnlock, listed := true)
    case LinkUnlock => sh.(main := Wait, lock := Nobody)
    case Wait => sh.(main := UnlinkLock, mail := if sh.mail > 0 then sh.mail - 1 else 0)
    case UnlinkLock => sh.(main := Unlink, lock := ByMain)
    case Unlink => sh.(main := UnlinkUnlock, listed := false)
    case UnlinkUnlock => sh.(main := Free, lock := Nobody)
    case Free => sh.(main := Finished, log := sh.log + [Freed])
    case Finished => sh
  }

  function Step(st: State, who: Actor): State {
    match who
    case Output => var (pc, sh) := ThreadStep(ByOutput, st.out, st.sh); State(pc, st.inp, sh)
    case Input => var (pc, sh) := ThreadStep(ByInput, st.inp, st.sh); State(st.out, pc, sh)
    case Kicker => st.(sh := KickerStep(st.sh))
    case Main => st.(sh := MainStep(st.sh))
  }

  predicate ThreadTouches(pc: Pc) {
    !pc.UnrefUnlock? && !pc.Exited?
  }

  /** The step that the actor takes next reads or writes the transport. */
  predicate Touches(st: State, who: Actor) {
    match who
    case Output => ThreadTouches(st.out)
    case Input => ThreadTouches(st.inp)
    case Kicker => (st.sh.kicker == Test && st.sh.listed) || st.sh.kicker == KickerKicking
    case Main => st.sh.main != Finished && st.sh.main != Wait
  }

  ghost predicate Follows(st: State, st': State) {
    exists who :: Enabled(st, who) && st' == Step(st, who)
  }

  ghost predicate IsRun(run: seq<State>) {
    run != [] && run[0] == INITIAL && forall k :: 0 <= k < |run| - 1 ==> Follows(run[k], run[k + 1])
  }

  // ---- the invariant ----

  /** The one order in which things happen. */
  const FULL := [KickStart, KickEnd, Closed, RemovalSent, Freed]

  predicate Ordered(log: seq<Event>) {
    |log| <= 5 && forall n :: 0 <= n < |log| ==> log[n] == FULL[n]
  }

  predicate HoldsLock(pc: Pc) {
    || pc.KickRead? || pc.KickUnlock? || pc.UnrefDec? || pc.UnrefTest? || pc.UnrefKick? || pc.UnrefKicking?
    || pc.CloseCall? || pc.RemoveCall? || pc.UnrefUnlock?
  }

  predicate HoldsRef(pc: Pc) {
    || pc.Pumping? || pc.KickCheck? || pc.KickLock? || pc.KickRead? || pc.KickUnlock? || pc.KickCall?
    || pc.Kicking? || pc.UnrefLock? || pc.UnrefDec?
  }

  /** The thread has set t->kicked and has yet to call t->kick. */
  predicate OwesKick(pc: Pc) {
    (pc.KickUnlock? && !pc.wasKicked) || pc.KickCall?
  }

  predicate InKick(pc: Pc) {
    pc.Kicking? || pc.UnrefKicking?
  }

  /** The thread has seen t->kicked set, or is done with kick_transport. */
  predicate SawKick(pc: Pc) {
    (pc.KickUnlock? && pc.wasKicked) || pc.UnrefLock? || (!HoldsRef(pc) && !pc.UnrefKick?) || pc.UnrefDec?
  }

  predicate LockInv(out: Pc, inp: Pc, sh: Shared) {
    && (HoldsLock(out) <==> sh.lock == ByOutput)
    && (HoldsLock(inp) <==> sh.lock == ByInput)
    && (sh.kicker != Idle <==> sh.lock == ByKicker)
    && (sh.main.Link? || sh.main.LinkUnlock? || sh.main.Unlink? || sh.main.UnlinkUnlock? <==> sh.lock == ByMain)
  }

  /** A kick that has been claimed is owed, under way or over, in exactly one place. */
  predicate KickInv(a: Pc, b: Pc, sh: Shared) {
    var kicking := Unit(InKick(a)) + Unit(InKick(b)) + Unit(sh.kicker == KickerKicking);
    && Unit(OwesKick(a)) + Unit(OwesKick(b)) + kicking + Unit(|sh.log| >= 2) == Unit(sh.kicked)
    && (|sh.log| == 1 <==> kicking == 1)
    && (SawKick(a) || SawKick(b) ==> sh.kicked)
    && !a.UnrefKick? && !b.UnrefKick? && !a.UnrefKicking? && !b.UnrefKicking?
  }

  predicate Gone(pc: Pc) {
    pc.UnrefUnlock? || pc.Exited?
  }

  predicate CloseInv(a: Pc, b: Pc, sh: Shared) {
    && sh.refCount == Unit(HoldsRef(a)) + Unit(HoldsRef(b))
    && (|sh.log| >= 3 ==> sh.refCount == 0)
    && (a.CloseCall? || b.CloseCall? ==> sh.refCount == 0 && |sh.log| == 2)
    && (a.RemoveCall? || b.RemoveCall? <==> |sh.log| == 3)
    && (a.UnrefTest? || b.UnrefTest? ==> |sh.log| < 3)
    && (Gone(a) && Gone(b) ==> |sh.log| >= 4)
  }

  predicate MainInv(sh: Shared) {
    && sh.mail + Unit(sh.main.UnlinkLock? || sh.main.Unlink? || sh.main.UnlinkUnlock? || sh.main.Free? || sh.main.Finished?)
       == Unit(|sh.log| >= 4)
    && (|sh.log| == 5 <==> sh.main == Finished)
    && (sh.listed <==> sh.main.LinkUnlock? || sh.main.Wait? || sh.main.UnlinkLock? || sh.main.Unlink?)
  }

  predicate Inv(st: State) {
    && Ordered(st.sh.log) && LockInv(st.out, st.inp, st.sh)
    && KickInv(st.out, st.inp, st.sh) && CloseInv(st.out, st.inp, st.sh) && MainInv(st.sh)
  }

  lemma OrderedNext(log: seq<Event>)
    requires Ordered(log) && |log| < 5
    ensures forall e :: e == FULL[|log|] ==> Ordered(log + [e])
  {
  }

  /** kick_transport, run by the output thread. */
  lemma KickKeepsInv(st: State)
    requires Inv(st) && Enabled(st, Output) && HoldsRef(st.out) && !st.out.UnrefLock? && !st.out.UnrefDec?
    ensures Inv(Step(st, Output))
  {
    if |st.sh.log| < 5 {
      OrderedNext(st.sh.log);
    }
    hide Ordered, MainInv;
    assert MainInv(Step(st, Output).sh) by { MainAfter(st.sh, Step(st, Output).sh); }
  }

  /** transport_unref, run by the output thread. */
  lemma UnrefKeepsInv(st: State)
    requires Inv(st) && Enabled(st, Output) && !(HoldsRef(st.out) && !st.out.UnrefLock? && !st.out.UnrefDec?)
    ensures Inv(Step(st, Output))
  {
    if |st.sh.log| < 5 {
      OrderedNext(st.sh.log);
    }
    hide Ordered;
  }

  lemma MainAfter(sh: Shared, sh': Shared)
    requires MainInv(sh) && sh'.main == sh.main && sh'.listed == sh.listed && sh'.mail == sh.mail
    requires |sh'.log| == |sh.log| || (|sh'.log| < 4 && |sh.log| < 4)
    ensures MainInv(sh')
  {
  }

  lemma OutputKeepsInv(st: State)
    requires Inv(st) && Enabled(st, Output)
    ensures Inv(Step(st, Output))
  {
    hide Inv, Step, Enabled;
    if HoldsRef(st.out) && !st.out.UnrefLock? && !st.out.UnrefDec? {
      KickKeepsInv(st);
    } else {
      UnrefKeepsInv(st);
    }
  }

  /** The two threads run the same code. */
  function Swap(st: State): State {
    State(st.inp, st.out, st.sh.(lock := if st.sh.lock == ByOutput then ByInput
                                         else if st.sh.lock == ByInput then ByOutput else st.sh.lock))
  }

  lemma SwapKeepsInv(st: State)
    ensures Inv(Swap(st)) <==> Inv(st)
  {
  }

  lemma KickerKeepsInv(st: State)
    requires Inv(st) && Enabled(st, Kicker)
    ensures Inv(Step(st, Kicker))
  {
  }

  lemma MainKeepsInv(st: State)
    requires Inv(st) && Enabled(st, Main)
    ensures Inv(Step(st, Main))
  {
  }

  lemma InputMirrors(st: State)
    requires Inv(st) && Enabled(st, Input)
    ensures Enabled(Swap(st), Output) && Swap(Step(st, Input)) == Step(Swap(st), Output)
  {
    hide KickInv, CloseInv, MainInv, Ordered;
  }

  lemma StepKeepsInv(st: State, who: Actor)
    requires Inv(st) && Enabled(st, who)
    ensures Inv(Step(st, who))
  {
    hide Inv, Step, Enabled, Swap;
    match who
    case Output => OutputKeepsInv(st);
    case Input =>
      SwapKeepsInv(st);
      InputMirrors(st);
      OutputKeepsInv(Swap(st));
      SwapKeepsInv(Step(st, Input));
    case Kicker => KickerKeepsInv(st);
    case Main => MainKeepsInv(st);
  }

  lemma {:induction false} RunInv(run: seq<State>, k: nat)
    requires IsRun(run) && k < |run|
    ensures Inv(run[k])
  {
    if k > 0 {
      RunInv(run, k - 1);
      assert Follows(run[k - 1], run[k - 1 + 1]);
      var who :| Enabled(run[k - 1], who) && run[k] == Step(run[k - 1], who);
      hide Inv, Step, Enabled;
      StepKeepsInv(run[k - 1], who);
    }
  }

  /**
   In every interleaving, what has happened is a beginning of: kick starts, kick returns, close,
   removal message, free.  So each happens at most once, in that order, and the close only after
   both threads have dropped their reference.
   */
  lemma LifecycleOrder(run: seq<State>, k: nat)
    requires IsRun(run) && k < |run|
    ensures run[k].sh.log <= FULL
    ensures Closed in run[k].sh.log ==> !HoldsRef(run[k].out) && !HoldsRef(run[k].inp) && run[k].sh.refCount == 0
  {
    RunInv(run, k);
    hide IsRun, LockInv, KickInv, MainInv;
    var log := run[k].sh.log;
    assert Closed in log ==> |log| >= 3;
  }

  /** Once both threads have exited, the kick, the close and the removal message have each happened once. */
  lemma LifecycleCompletes(run: seq<State>, k: nat)
    requires IsRun(run) && k < |run| && run[k].out == Exited && run[k].inp == Exited
    ensures FULL[..4] <= run[k].sh.log <= FULL
  {
    RunInv(run, k);
    hide IsRun, LockInv, KickInv, MainInv;
  }

  /** Nobody touches the transport after it has been freed. */
  lemma NoUseAfterFree(run: seq<State>, k: nat, who: Actor)
    requires IsRun(run) && k < |run| && Freed in run[k].sh.log
    ensures !Touches(run[k], who)
  {
    RunInv(run, k);
    hide IsRun;
    assert |run[k].sh.log| == 5;
  }

  lemma CanMove(st: State)
    requires Inv(st) && st.sh.kicker == Idle && |st.sh.log| < 5
    ensures Enabled(st, Output) || Enabled(st, Input) || Enabled(st, Main)
  {
    hide KickInv, Ordered;
  }

  lemma FreedLast(log: seq<Event>)
    requires Ordered(log)
    ensures Freed in log <==> |log| == 5
  {
    if |log| == 5 {
      assert log[4] == FULL[4];
    }
  }

  /** How many steps an outside kicker has left before it gives up the lock. */
  function KickerSteps(sh: Shared): nat {
    match sh.kicker
    case Idle => 0
    case Leave => 1
    case KickerKicking => 2
    case Test => 3
  }

  /** Until the transport is freed some thread can move, or a kicker that holds the lock can, and comes nearer to its end. */
  lemma NoDeadlock(run: seq<State>, k: nat)
    requires IsRun(run) && k < |run| && Freed !in run[k].sh.log
    ensures var st := run[k];
            if st.sh.kicker == Idle then Enabled(st, Output) || Enabled(st, Input) || Enabled(st, Main)
            else Enabled(st, Kicker) && KickerSteps(Step(st, Kicker).sh) < KickerSteps(st.sh)
  {
    RunInv(run, k);
    FreedLast(run[k].sh.log);
    hide IsRun, LockInv, KickInv, MainInv, CloseInv;
    if run[k].sh.kicker == Idle {
      CanMove(run[k]);
    }
  }

  // ---- what an outside kicker achieves ----

  /** The kicker kicks only a listed transport; once it has looked at one, the transport has been kicked. */
  predicate KickerInv(sh: Shared) {
    && (sh.kicker == KickerKicking ==> sh.listed)
    && ((sh.kicker == KickerKicking || sh.kicker == Leave) && sh.listed ==> sh.kicked)
  }

  lemma StepKeepsKicker(st: State, who: Actor)
    requires Inv(st) && KickerInv(st.sh) && Enabled(st, who)
    ensures KickerInv(Step(st, who).sh)
  {
    hide Ordered, KickInv, CloseInv;
  }

  lemma {:induction false} RunKicker(run: seq<State>, k: nat)
    requires IsRun(run) && k < |run|
    ensures KickerInv(run[k].sh)
  {
    if k > 0 {
      RunKicker(run, k - 1);
      RunInv(run, k - 1);
      assert Follows(run[k - 1], run[k - 1 + 1]);
      var who :| Enabled(run[k - 1], who) && run[k] == Step(run[k - 1], who);
      hide Inv, KickerInv, Step;
      StepKeepsKicker(run[k - 1], who);
    }
  }

  /**
   In every run an outside kicker kicks only a listed transport. When it is about to leave while the transport is listed,
   the kick is over, or a thread still owes it or is inside it.
   */
  lemma OutsideKick(run: seq<State>, k: nat)
    requires IsRun(run) && k < |run|
    ensures run[k].sh.kicker == KickerKicking ==> run[k].sh.listed
    ensures var st := run[k];
            st.sh.kicker == Leave && st.sh.listed ==>
              && st.sh.kicked
              && (KickEnd in st.sh.log || OwesKick(st.out) || OwesKick(st.inp) || InKick(st.out) || InKick(st.inp))
  {
    RunInv(run, k);
    RunKicker(run, k);
    hide IsRun;
    var st := run[k];
    if |st.sh.log| >= 2 {
      assert st.sh.log[1] == KickEnd;
    }
  }
}
