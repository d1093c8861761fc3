/** The command queue, its semaphore and the power handshake of CONFIG_LPS_LCLK as one
    interleaving model: any number of enqueuers (rtw_enqueue_cmd), the command thread
    (rtw_cmd_thread), any number of callers of LPS_Enter and LPS_Leave, a transmitter,
    receive and event tasks, the firmware, and the CPWM interrupt, which takes no lock.

    The register sequence of the command thread and the leave sequence are split where the
    interrupt can run; the other locked functions are one step each. */
module CommandHandshake {
  import opened PowerControl

  datatype Lock = Free | HeldByThread | HeldByLeaver

  /** Where the command thread is.
      AtDown: about to wait on cmd_queue_sema.  Woken: past it, not yet registered.
      Flagged: CMD_ALIVE set under the lock.    Refusing: has read a cpwm below S2.
      Requesting: in rtw_set_rpwm with the acknowledgement bit decided.
      Draining: at the label _next.             Emptied: the dequeue returned NULL. */
  datatype Thread = AtDown | Woken | Flagged | Refusing | Requesting(ack: bool) | Draining | Emptied

  /** A caller of LPS_Leave inside the lock. */
  datatype Leaver = Away | Setting(needAck: bool) | Waiting

  /** The CPWM interrupt: Raised is between writing cpwm and looking at `alives`. */
  datatype Interrupt = Quiet | Raised

  /** A transmitter: rtw_register_tx_alive refused it, or let it transmit. */
  datatype Sender = NotSending | Refused | Sending

  datatype Sys = Sys(
    pwr: Pwr, lock: Lock,
    thread: Thread, leaver: Leaver, intr: Interrupt, sender: Sender,
    sema: nat,           // cmd_queue_sema
    queue: seq<nat>,     // cmd_queue, oldest first
    posting: nat,        // enqueuers that have inserted and not yet raised the semaphore
    enterers: nat,       // callers of LPS_Enter past the unlocked mode test
    leavers: nat,        // callers of LPS_Leave past the unlocked mode test
    fw: nat,             // the firmware's real power state
    wire: seq<Request>,  // requests written and not yet seen by the firmware
    acks: seq<nat>)      // CPWM reports on their way to the driver

  function Init(): Sys {
    Sys(Pwr(0, S4, true, {}, MODE_ACTIVE, 0, false, false), Free,
        AtDown, Away, Quiet, NotSending, 0, [], 0, 0, 0, S4, [], [])
  }

  datatype Step =
    // enqueuers
    | Insert(cmd: nat) | Post
    // command thread
    | Down | Flag | Check | Decide | Write | Dequeue | FindEmpty | Unregister
    // LPS_Enter and LPS_Leave
    | EnterCall | EnterSkip | EnterLocked(mode: nat)
    | LeaveCall | LeaveSkip | LeaveLocked | LeaveWrite | LeaveDone
    // the other tasks
    | SendRegister | SendDone | TagOn(tag: Tag) | TagOff(tag: Tag)
    // firmware and interrupt
    | FwTake | FwOverwritten | IntrReport | IntrWake

  predicate Enabled(s: Sys, e: Step) {
    match e
    case Insert(_) => true
    case Post => s.posting > 0
    case Down => s.thread == AtDown && s.sema > 0
    case Flag => s.thread == Woken && s.lock == Free
    case Check => s.thread == Flagged
    case Decide => s.thread == Refusing
    case Write => s.thread.Requesting?
    case Dequeue => s.thread == Draining && s.queue != []
    case FindEmpty => s.thread == Draining && s.queue == []
    case Unregister => s.thread == Emptied && s.lock == Free
    case EnterCall => s.pwr.mode == MODE_ACTIVE
    case EnterSkip => s.enterers > 0
    case EnterLocked(mode) => s.enterers > 0 && s.lock == Free && mode != MODE_ACTIVE
    case LeaveCall => s.pwr.mode != MODE_ACTIVE
    case LeaveSkip => s.leavers > 0
    case LeaveLocked => s.leavers > 0 && s.lock == Free
    case LeaveWrite => s.leaver.Setting?
    case LeaveDone => s.leaver == Waiting && s.pwr.cpwm == S4
    case SendRegister => s.sender != Sending && s.lock == Free
    case SendDone => s.sender == Sending && s.lock == Free
    case TagOn(tag) => (tag == RecvAlive || tag == EvtAlive) && s.lock == Free
    case TagOff(tag) => (tag == RecvAlive || tag == EvtAlive) && s.lock == Free
    case FwTake => s.wire != []
    case FwOverwritten => |s.wire| >= 2
    case IntrReport => s.acks != [] && s.intr == Quiet
    case IntrWake => s.intr == Raised
  }

  function Put(s: Sys, o: Outcome): Sys {
    s.(pwr := o.pwr, wire := s.wire + o.sent)
  }

  function Do(s: Sys, e: Step): Sys
    requires Enabled(s, e)
  {
    match e
    case Insert(cmd) => s.(queue := s.queue + [cmd], posting := s.posting + 1)
    case Post => s.(posting := s.posting - 1, sema := s.sema + 1)
    case Down => s.(sema := s.sema - 1, thread := Woken)
    case Flag =>
      s.(lock := HeldByThread, thread := Flagged,
         pwr := s.pwr.(alives := s.pwr.alives + {CmdAlive}))
    case Check =>
      if s.pwr.fwInPs && s.pwr.cpwm < S2 then s.(thread := Refusing)
      else s.(thread := Draining, lock := Free)
    case Decide =>
      if s.pwr.rpwm < S2 then s.(thread := Requesting(s.pwr.NeedsAck(S2)))
      else s.(thread := AtDown, lock := Free)
    case Write =>
      s.(thread := AtDown, lock := Free, pwr := s.pwr.WriteRpwm(S2, s.thread.ack),
         wire := s.wire + [Request(S2, s.pwr.tog, s.thread.ack)])
    case Dequeue => s.(queue := s.queue[1..])
    case FindEmpty => s.(thread := Emptied)
    case Unregister => Put(s, s.pwr.UnregisterAlive(CmdAlive)).(thread := AtDown)
    case EnterCall => s.(enterers := s.enterers + 1)
    case EnterSkip => s.(enterers := s.enterers - 1)
    case EnterLocked(mode) => Put(s, s.pwr.EnterMode(mode, 2)).(enterers := s.enterers - 1)
    case LeaveCall => s.(leavers := s.leavers + 1)
    case LeaveSkip => s.(leavers := s.leavers - 1)
    case LeaveLocked =>
      s.(leavers := s.leavers - 1, lock := HeldByLeaver,
         pwr := s.pwr.(mode := MODE_ACTIVE, smartPs := 0),
         leaver := if s.pwr.rpwm == S4 then Waiting else Setting(s.pwr.NeedsAck(S4)))
    case LeaveWrite =>
      s.(leaver := Waiting, pwr := s.pwr.WriteRpwm(S4, s.leaver.needAck),
         wire := s.wire + [Request(S4, s.pwr.tog, s.leaver.needAck)])
    case LeaveDone =>
      s.(leaver := Away, lock := Free, pwr := s.pwr.(fwInPs := false))
    case SendRegister =>
      var o := s.pwr.RegisterAlive(XmitAlive);
      Put(s, o).(sender := if o.ok then Sending else Refused)
    case SendDone => Put(s, s.pwr.UnregisterAlive(XmitAlive)).(sender := NotSending)
    case TagOn(tag) => s.(pwr := s.pwr.(alives := s.pwr.alives + {tag}))
    case TagOff(tag) => s.(pwr := s.pwr.(alives := s.pwr.alives - {tag}))
    case FwTake =>
      var r := s.wire[0];
      s.(wire := s.wire[1..], fw := r.level, acks := if r.ack then s.acks + [r.level] else s.acks)
    case FwOverwritten => s.(wire := s.wire[1..])
    case IntrReport =>
      s.(acks := s.acks[1..], pwr := s.pwr.(cpwm := s.acks[0]), intr := Raised)
    case IntrWake =>
      s.(intr := Quiet,
         sema := if s.pwr.cpwm >= S2 && CmdAlive in s.pwr.alives then s.sema + 1 else s.sema)
  }

  ghost predicate Next(s: Sys, t: Sys) {
    exists e :: Enabled(s, e) && t == Do(s, e)
  }

  ghost predicate IsRun(run: seq<Sys>) {
    && run != []
    && forall i :: 0 <= i < |run| - 1 ==> Next(run[i], run[i + 1])
  }

  // ---- what is outstanding ---------------------------------------------------------

  function AckLevels(q: seq<Request>): seq<nat> {
    if q == [] then [] else (if q[0].ack then [q[0].level] else []) + AckLevels(q[1..])
  }

  /** Levels of the acknowledgements still to reach the driver, in order of arrival. */
  function Pending(s: Sys): seq<nat> {
    s.acks + AckLevels(s.wire)
  }

  predicate AllHigh(q: seq<Request>) {
    q == [] || (q[0].level >= S2 && AllHigh(q[1..]))
  }

  /** A request that asks for an acknowledgement wakes the firmware, and is followed only
      by requests that do the same. */
  predicate WakesLast(q: seq<Request>) {
    q == [] || ((q[0].ack ==> q[0].level >= S2 && (|q| > 1 ==> q[1].ack)) && WakesLast(q[1..]))
  }

  lemma {:induction false} Append(q: seq<Request>, r: Request)
    requires WakesLast(q) && (if r.ack then r.level >= S2 else |AckLevels(q)| == 0)
    ensures AckLevels(q + [r]) == AckLevels(q) + (if r.ack then [r.level] else [])
    ensures AllHigh(q + [r]) <==> AllHigh(q) && r.level >= S2
    ensures WakesLast(q + [r])
  {
    if q == [] {
      assert q + [r] == [r];
    } else {
      assert (q + [r])[1..] == q[1..] + [r];
      Append(q[1..], r);
    }
  }

  lemma {:induction false} AckHead(q: seq<Request>)
    requires q != [] && WakesLast(q) && q[0].ack
    ensures AllHigh(q) && |AckLevels(q)| == |q|
  {
    if |q| > 1 {
      AckHead(q[1..]);
    }
  }

  // ---- the invariant ---------------------------------------------------------------

  predicate Levels(s: Sys) {
    && s.pwr.cpwm in {S0, S2, S4}
    && s.pwr.rpwm in {0, S0, S2, S4}
    && !s.pwr.stopped
  }

  predicate FirmwareFollows(s: Sys) {
    && WakesLast(s.wire)
    && (s.acks != [] || s.pwr.cpwm >= S2 ==> s.fw >= S2 && AllHigh(s.wire))
  }

  predicate LockMatches(s: Sys) {
    && (s.lock == HeldByThread <==> s.thread in {Flagged, Refusing} || s.thread.Requesting?)
    && (s.lock == HeldByLeaver <==> s.leaver != Away)
  }

  predicate Requested(s: Sys) {
    && (s.pwr.rpwm == 0 ==> s.pwr.cpwm == S4)
    && (s.pwr.rpwm == S0 ==> s.pwr.cpwm == S0)
    && (s.pwr.rpwm == S2 ==> s.pwr.cpwm in {S0, S2})
  }

  /** What may be outstanding while no caller of LPS_Leave holds the lock. */
  predicate PendingWake(s: Sys) {
    && |Pending(s)| <= 1
    && (|Pending(s)| == 1 ==>
        && Pending(s)[0] == S2 && s.pwr.rpwm == S2 && s.pwr.cpwm < S2
        && (CmdAlive in s.pwr.alives || XmitAlive in s.pwr.alives))
    && (s.pwr.cpwm < S2 && s.pwr.rpwm >= S2 ==> |Pending(s)| > 0)
    && (s.pwr.rpwm == S4 ==> s.pwr.cpwm == S4)
  }

  predicate ModeMatches(s: Sys) {
    && (s.pwr.mode == MODE_ACTIVE <==> !s.pwr.fwInPs)
    && (s.pwr.mode == MODE_ACTIVE ==> s.pwr.cpwm == S4)
  }

  predicate LeaverHolds(s: Sys) {
    match s.leaver
    case Away => PendingWake(s) && ModeMatches(s)
    case Setting(needAck) =>
      && s.pwr.mode == MODE_ACTIVE && |Pending(s)| <= 1 && s.pwr.rpwm != S4
      && (|Pending(s)| == 1 ==> Pending(s)[0] == S2 && s.pwr.rpwm == S2 && s.pwr.cpwm < S2 && needAck)
      && (!needAck ==> s.pwr.cpwm >= S2)
      && (s.pwr.cpwm == S4 ==> !needAck)
    case Waiting =>
      && s.pwr.mode == MODE_ACTIVE && s.pwr.rpwm == S4
      && |Pending(s)| <= 2
      && (|Pending(s)| == 0 <==> s.pwr.cpwm == S4)
      && (|Pending(s)| > 0 ==> Pending(s)[|Pending(s)| - 1] == S4)
      && (|Pending(s)| == 2 ==> Pending(s)[0] == S2 && s.pwr.cpwm < S2)
  }

  /** A refused command thread will be woken: an acknowledgement is outstanding, or the
      interrupt has written cpwm and is about to raise the semaphore, or has raised it. */
  predicate WakeComing(s: Sys) {
    |Pending(s)| > 0 || (s.intr == Raised && s.pwr.cpwm >= S2) || s.sema > 0
  }

  predicate ThreadHolds(s: Sys) {
    && (s.thread in {Flagged, Refusing, Draining, Emptied} || s.thread.Requesting? ==>
        CmdAlive in s.pwr.alives)
    && (s.thread in {Draining, Emptied} ==> s.pwr.cpwm >= S2)
    && (s.thread == AtDown && CmdAlive in s.pwr.alives ==> WakeComing(s))
    && (s.thread == Refusing ==>
        && s.pwr.fwInPs
        && (s.pwr.rpwm >= S2 ==> WakeComing(s))
        && (s.pwr.rpwm < S2 ==> s.pwr.cpwm < S2))
    && (s.thread.Requesting? ==>
        && s.pwr.fwInPs && s.thread.ack && s.pwr.rpwm < S2 && s.pwr.cpwm < S2)
  }

  predicate SenderHolds(s: Sys) {
    && (s.sender != NotSending ==> XmitAlive in s.pwr.alives)
    && (s.sender == Sending ==> s.pwr.cpwm >= S2)
  }

  /** Every queued command has a wake-up that belongs to it. */
  predicate Covered(s: Sys) {
    s.queue == [] || s.posting > 0 || s.sema > 0
    || s.thread in {Woken, Flagged, Refusing, Draining} || s.thread.Requesting?
    || (s.thread == AtDown && CmdAlive in s.pwr.alives)
  }

  predicate Inv(s: Sys) {
    && Levels(s) && FirmwareFollows(s) && LockMatches(s) && Requested(s)
    && LeaverHolds(s) && ThreadHolds(s) && SenderHolds(s) && Covered(s)
  }

  lemma InitInv()
    ensures Inv(Init())
  {
    assert Pending(Init()) == [];
  }

  // ---- the invariant is kept by every step, actor by actor --------------------------

  lemma InsertInv(s: Sys, cmd: nat)
    requires Inv(s)
    ensures Inv(Do(s, Insert(cmd)))
  {
    assert Pending(Do(s, Insert(cmd))) == Pending(s);
  }

  lemma PostInv(s: Sys)
    requires Inv(s) && Enabled(s, Post)
    ensures Inv(Do(s, Post))
  {
    assert Pending(Do(s, Post)) == Pending(s);
  }

  lemma DequeueInv(s: Sys)
    requires Inv(s) && Enabled(s, Dequeue)
    ensures Inv(Do(s, Dequeue))
  {
    assert Pending(Do(s, Dequeue)) == Pending(s);
  }

  lemma FindEmptyInv(s: Sys)
    requires Inv(s) && Enabled(s, FindEmpty)
    ensures Inv(Do(s, FindEmpty))
  {
    assert Pending(Do(s, FindEmpty)) == Pending(s);
  }

  lemma RegisterStepInv(s: Sys, e: Step)
    requires Inv(s) && Enabled(s, e)
    requires e.Down? || e.Flag? || e.Check? || e.Decide?
    ensures Inv(Do(s, e))
  {
    assert Pending(Do(s, e)) == Pending(s);
  }

  lemma WriteStepInv(s: Sys)
    requires Inv(s) && Enabled(s, Write)
    ensures Inv(Do(s, Write))
  {
    Append(s.wire, Request(S2, s.pwr.tog, s.thread.ack));
    assert |Pending(s)| == 0 && Pending(Do(s, Write)) == [S2];
  }

  predicate SleepStep(e: Step) {
    e.Unregister? || e.SendDone? || e.EnterLocked?
  }

  /** A step that writes a request for S0. */
  predicate AsksForSleep(s: Sys, t: Sys) {
    |t.wire| == |s.wire| + 1 && t.wire[|s.wire|].level == S0
  }

  lemma SleepStepEffect(s: Sys, e: Step)
    requires Inv(s) && Enabled(s, e) && SleepStep(e)
    ensures var t := Do(s, e);
      || (t.wire == s.wire && t.pwr.cpwm == s.pwr.cpwm && t.pwr.rpwm == s.pwr.rpwm)
      || (&& t.wire == s.wire + [Request(S0, s.pwr.tog, false)]
          && t.pwr.cpwm == S0 && t.pwr.rpwm == S0
          && t.pwr.alives == {} && |Pending(s)| == 0)
  {
    assert s.wire + [] == s.wire;
  }

  /** Nothing was written: nobody outside the caller notices. */
  lemma SleepOutstanding(s: Sys, e: Step)
    requires Inv(s) && Enabled(s, e) && SleepStep(e)
    ensures var t := Do(s, e); Pending(t) == Pending(s) && FirmwareFollows(t)
  {
    SleepStepEffect(s, e);
    if Do(s, e).wire != s.wire { Append(s.wire, Request(S0, s.pwr.tog, false)); }
  }

  lemma UnregisterInv(s: Sys)
    requires Inv(s) && Enabled(s, Unregister)
    ensures Inv(Do(s, Unregister))
  {
    SleepStepEffect(s, Unregister);
    SleepOutstanding(s, Unregister);
  }

  lemma SendDoneInv(s: Sys)
    requires Inv(s) && Enabled(s, SendDone)
    ensures Inv(Do(s, SendDone))
  {
    SleepStepEffect(s, SendDone);
    SleepOutstanding(s, SendDone);
  }

  lemma EnterLockedInv(s: Sys, mode: nat)
    requires Inv(s) && Enabled(s, EnterLocked(mode))
    ensures Inv(Do(s, EnterLocked(mode)))
  {
    SleepStepEffect(s, EnterLocked(mode));
    SleepOutstanding(s, EnterLocked(mode));
  }

  lemma SendRegisterStepInv(s: Sys)
    requires Inv(s) && Enabled(s, SendRegister)
    ensures Inv(Do(s, SendRegister))
  {
    var t := Do(s, SendRegister);
    Append(s.wire, Request(S2, s.pwr.tog, true));
    assert s.wire + [] == s.wire;
    if t.wire != s.wire {
      assert |Pending(s)| == 0 && Pending(t) == [S2];
    }
  }

  /** Callers outside the lock do not matter. */
  lemma CallersInv(s: Sys, enterers: nat, leavers: nat)
    requires Inv(s)
    ensures Inv(s.(enterers := enterers, leavers := leavers))
  {
    assert Pending(s.(enterers := enterers, leavers := leavers)) == Pending(s);
  }

  lemma CallStepInv(s: Sys, e: Step)
    requires Inv(s) && Enabled(s, e)
    requires e.EnterCall? || e.EnterSkip? || e.LeaveCall? || e.LeaveSkip?
    ensures Inv(Do(s, e))
  {
    var t := Do(s, e);
    CallersInv(s, t.enterers, t.leavers);
  }

  lemma TagStepInv(s: Sys, e: Step)
    requires Inv(s) && Enabled(s, e)
    requires e.TagOn? || e.TagOff?
    ensures Inv(Do(s, e))
  {
    assert Pending(Do(s, e)) == Pending(s);
  }

  lemma LeaveStepInv(s: Sys, e: Step)
    requires Inv(s) && Enabled(s, e)
    requires e.LeaveLocked? || e.LeaveDone?
    ensures Inv(Do(s, e))
  {
    assert Pending(Do(s, e)) == Pending(s);
  }

  lemma LeaveWriteStepInv(s: Sys)
    requires Inv(s) && Enabled(s, LeaveWrite)
    ensures Inv(Do(s, LeaveWrite))
  {
    var t := Do(s, LeaveWrite);
    Append(s.wire, Request(S4, s.pwr.tog, s.leaver.needAck));
    assert Pending(t) == Pending(s) + (if s.leaver.needAck then [S4] else []);
  }

  /** What the firmware does while nothing outstanding changes. */
  lemma SamePendingInv(s: Sys, t: Sys)
    requires Inv(s) && t == s.(wire := t.wire, acks := t.acks, fw := t.fw)
    requires Pending(t) == Pending(s) && FirmwareFollows(t)
    ensures Inv(t)
  {
  }

  lemma FwTakeFollows(s: Sys)
    requires FirmwareFollows(s) && s.wire != []
    ensures FirmwareFollows(Do(s, FwTake)) && Pending(Do(s, FwTake)) == Pending(s)
  {
    var t := Do(s, FwTake);
    if s.wire[0].ack {
      AckHead(s.wire);
      assert t.fw >= S2 && AllHigh(t.wire);
    }
    assert Pending(t) == Pending(s);
  }

  lemma FwTakeStepInv(s: Sys)
    requires Inv(s) && Enabled(s, FwTake)
    ensures Inv(Do(s, FwTake))
  {
    FwTakeFollows(s);
    SamePendingInv(s, Do(s, FwTake));
  }

  lemma FwOverwrittenStepInv(s: Sys)
    requires Inv(s) && Enabled(s, FwOverwritten)
    ensures Inv(Do(s, FwOverwritten))
  {
    var t := Do(s, FwOverwritten);
    if s.wire[0].ack {
      OverwrittenWake(s);
    } else {
      SamePendingInv(s, t);
    }
  }

  /** An overwritten wake request is followed by another one, whose acknowledgement stays. */
  lemma OverwrittenWake(s: Sys)
    requires Inv(s) && Enabled(s, FwOverwritten) && s.wire[0].ack
    ensures Inv(Do(s, FwOverwritten))
  {
    var t := Do(s, FwOverwritten);
    AckHead(s.wire);
    AckHead(t.wire);
    assert Pending(s) == s.acks + [s.wire[0].level] + AckLevels(t.wire);
  }

  lemma IntrReportStepInv(s: Sys)
    requires Inv(s) && Enabled(s, IntrReport)
    ensures Inv(Do(s, IntrReport))
  {
    assert Pending(s) == [s.acks[0]] + Pending(Do(s, IntrReport));
  }

  lemma IntrWakeStepInv(s: Sys)
    requires Inv(s) && Enabled(s, IntrWake)
    ensures Inv(Do(s, IntrWake))
  {
    assert Pending(Do(s, IntrWake)) == Pending(s);
  }

  lemma StepInv(s: Sys, e: Step)
    requires Inv(s) && Enabled(s, e)
    ensures Inv(Do(s, e))
  {
    match e
    case Insert(cmd) => InsertInv(s, cmd);
    case Post => PostInv(s);
    case Dequeue => DequeueInv(s);
    case FindEmpty => FindEmptyInv(s);
    case Down => RegisterStepInv(s, e);
    case Flag => RegisterStepInv(s, e);
    case Check => RegisterStepInv(s, e);
    case Decide => RegisterStepInv(s, e);
    case Write => WriteStepInv(s);
    case Unregister => UnregisterInv(s);
    case SendDone => SendDoneInv(s);
    case EnterLocked(mode) => EnterLockedInv(s, mode);
    case SendRegister => SendRegisterStepInv(s);
    case LeaveWrite => LeaveWriteStepInv(s);
    case FwTake => FwTakeStepInv(s);
    case FwOverwritten => FwOverwrittenStepInv(s);
    case IntrReport => IntrReportStepInv(s);
    case IntrWake => IntrWakeStepInv(s);
    case LeaveLocked => LeaveStepInv(s, e);
    case LeaveDone => LeaveStepInv(s, e);
    case TagOn(_) => TagStepInv(s, e);
    case TagOff(_) => TagStepInv(s, e);
    case _ => CallStepInv(s, e);
  }

  // ---- safety of every run ----------------------------------------------------------

  /** No queued command is stranded. */
  predicate NoStranded(s: Sys) {
    s.queue != [] ==>
      || s.sema > 0 || s.posting > 0
      || s.thread in {Woken, Flagged, Draining}
      || ((s.thread == Refusing || s.thread.Requesting?) && CmdAlive in s.pwr.alives)
      || (s.thread == AtDown && CmdAlive in s.pwr.alives
          && (|Pending(s)| > 0 || (s.intr == Raised && s.pwr.cpwm >= S2)))
  }

  /** What the driver believes or has been promised about the firmware is true of it. */
  predicate Awake(s: Sys) {
    && (s.pwr.cpwm >= S2 ==> s.fw >= S2)
    && (s.thread in {Draining, Emptied} ==> s.fw >= S2)
    && (s.sender == Sending ==> s.fw >= S2)
  }

  /** A request for S0 leaves nobody alive and overtakes no acknowledgement. */
  predicate SleepsOnlyWhenIdle(s: Sys, t: Sys) {
    AsksForSleep(s, t) ==> t.pwr.alives == {} && |Pending(s)| == 0
  }

  /** And it is asked to sleep whenever that is due: when the last one unregisters in power-save
      mode while cpwm is above S0, and on entering power save with nobody registered, unless
      that was the last thing asked for; no other step does. */
  lemma SleepIsAskedFor(s: Sys, e: Step)
    requires Inv(s) && Enabled(s, e)
    ensures var t := Do(s, e);
      AsksForSleep(s, t) <==>
        || ((e.Unregister? || e.SendDone?) && t.pwr.alives == {} && s.pwr.mode != MODE_ACTIVE && s.pwr.cpwm > S0)
        || (e.EnterLocked? && s.pwr.alives == {} && s.pwr.rpwm != S0)
  {
    if e.SendRegister? { assert s.wire + [] == s.wire; }
  }

  /** A transmitter is let through, and the command thread goes on to its queue, exactly when the
      firmware is not in power save or known to be awake; whoever asks is noted either way. */
  lemma LetThroughExactly(s: Sys, e: Step)
    requires Inv(s) && Enabled(s, e)
    ensures e.SendRegister? ==>
      && XmitAlive in Do(s, e).pwr.alives
      && Do(s, e).sender == if !s.pwr.fwInPs || s.pwr.cpwm >= S2 then Sending else Refused
    ensures e.Flag? ==> CmdAlive in Do(s, e).pwr.alives
    ensures e.Check? ==> Do(s, e).thread == if !s.pwr.fwInPs || s.pwr.cpwm >= S2 then Draining else Refusing
    ensures forall tag :: tag in Do(s, e).pwr.alives && tag !in s.pwr.alives ==>
      match tag
      case XmitAlive => e.SendRegister?
      case CmdAlive => e.Flag?
      case _ => e == TagOn(tag)
    ensures forall tag :: tag !in Do(s, e).pwr.alives && tag in s.pwr.alives ==>
      match tag
      case XmitAlive => e.SendDone?
      case CmdAlive => e.Unregister?
      case _ => e == TagOff(tag)
    ensures e.TagOn? ==> e.tag in Do(s, e).pwr.alives
    ensures e.TagOff? ==> e.tag !in Do(s, e).pwr.alives
  {
  }

  predicate SafeRun(run: seq<Sys>) {
    && (forall i :: 0 <= i < |run| ==> NoStranded(run[i]) && Awake(run[i]))
    && (forall i {:trigger run[i]} :: 0 < i < |run| ==> SleepsOnlyWhenIdle(run[i - 1], run[i]))
  }

  /** Whatever happens next, it is safe. */
  ghost predicate SafeFrom(s: Sys) {
    forall run :: IsRun(run) && run[0] == s ==> SafeRun(run)
  }

  lemma PowerSafety(s: Sys, e: Step)
    requires Inv(s) && Enabled(s, e)
    ensures SleepsOnlyWhenIdle(s, Do(s, e))
  {
    if SleepStep(e) {
      SleepStepEffect(s, e);
    } else if e.SendRegister? {
      assert s.wire + [] == s.wire;
    }
  }

  lemma InvImplies(s: Sys)
    requires Inv(s)
    ensures NoStranded(s) && Awake(s)
  {
  }

  lemma {:induction false} RunInv(run: seq<Sys>)
    requires IsRun(run) && Inv(run[0])
    ensures forall i :: 0 <= i < |run| ==> Inv(run[i])
  {
    var n := 1;
    while n < |run|
      invariant 1 <= n <= |run|
      invariant forall i :: 0 <= i < n ==> Inv(run[i])
    {
      assert Next(run[n - 1], run[n - 1 + 1]);
      var e :| Enabled(run[n - 1], e) && run[n] == Do(run[n - 1], e);
      StepInv(run[n - 1], e);
      n := n + 1;
    }
  }

  lemma InvIsSafe(run: seq<Sys>)
    requires IsRun(run) && Inv(run[0])
    ensures SafeRun(run)
  {
    RunInv(run);
    forall i | 0 <= i < |run|
      ensures NoStranded(run[i]) && Awake(run[i])
    {
      InvImplies(run[i]);
    }
    forall i | 0 < i < |run|
      ensures SleepsOnlyWhenIdle(run[i - 1], run[i])
    {
      assert Next(run[i - 1], run[i - 1 + 1]);
      var e :| Enabled(run[i - 1], e) && run[i] == Do(run[i - 1], e);
      PowerSafety(run[i - 1], e);
    }
  }

  /** The main theorem, over every interleaving of every length. */
  lemma EveryRunIsSafe()
    ensures SafeFrom(Init())
  {
    InitInv();
    forall run | IsRun(run) && run[0] == Init() ensures SafeRun(run) {
      InvIsSafe(run);
    }
  }

  // ---- progress: a queued command can always be served ------------------------------

  /** Steps that finish work already begun; none of them is a new outside event. */
  predicate Internal(e: Step) {
    e in {Post, Down, Flag, Check, Decide, Write, Dequeue, Unregister,
          LeaveWrite, LeaveDone, FwTake, IntrReport, IntrWake}
  }

  ghost predicate InternalNext(s: Sys, t: Sys) {
    exists e :: Internal(e) && Enabled(s, e) && t == Do(s, e)
  }

  ghost predicate IsInternalRun(run: seq<Sys>) {
    && run != []
    && forall i :: 0 <= i < |run| - 1 ==> InternalNext(run[i], run[i + 1])
  }

  /** One that is there while a command is queued. */
  function Helpful(s: Sys): Step {
    if s.intr == Raised then IntrWake
    else if s.acks != [] then IntrReport
    else if s.wire != [] then FwTake
    else if s.leaver.Setting? then LeaveWrite
    else if s.leaver.Waiting? then LeaveDone
    else match s.thread
      case AtDown => if s.sema > 0 then Down else Post
      case Woken => Flag
      case Flagged => Check
      case Refusing => Decide
      case Requesting(_) => Write
      case Draining => Dequeue
      case Emptied => Unregister
  }

  function ThreadWork(t: Thread): nat {
    match t
    case AtDown => 0
    case Draining => 0
    case Requesting(_) => 2
    case Refusing => 3
    case Flagged => 4
    case Woken => 5
    case Emptied => 20
  }

  /** What is left to do before the command thread dequeues: every other internal step makes it
      less. A request on the wire is worth more than its report, that more than a raised
      interrupt, that more than a wake-up; a register the thread may still raise to S2 is worth
      more than the request. */
  function Work(s: Sys): nat {
    ThreadWork(s.thread) + 7 * s.posting + 6 * s.sema
    + (if s.intr == Raised then 7 else 0) + 8 * |s.acks| + 9 * |s.wire|
    + (if s.pwr.rpwm < S2 then 10 else 0)
    + (if s.leaver.Setting? then 11 else if s.leaver.Waiting? then 1 else 0)
  }

  /** While a command is queued, the system never comes to rest. */
  lemma NeverAtRest(s: Sys) returns (t: Sys)
    requires Inv(s) && s.queue != []
    ensures InternalNext(s, t)
  {
    HelpfulIsEnabled(s);
    t := Do(s, Helpful(s));
  }

  lemma HelpfulIsEnabled(s: Sys)
    requires Inv(s) && s.queue != []
    ensures Enabled(s, Helpful(s)) && Internal(Helpful(s))
  {
  }

  lemma WorkShrinks(s: Sys, e: Step)
    requires Inv(s) && Enabled(s, e) && Internal(e)
    ensures if e == Dequeue then Do(s, e).queue == s.queue[1..]
            else Do(s, e).queue == s.queue && Work(Do(s, e)) < Work(s)
  {
  }

  lemma InternalStep(s: Sys, t: Sys)
    requires Inv(s) && s.queue != [] && InternalNext(s, t)
    ensures Inv(t)
    ensures t.queue == s.queue[1..] || (t.queue == s.queue && Work(t) < Work(s))
  {
    var e :| Internal(e) && Enabled(s, e) && t == Do(s, e);
    StepInv(s, e);
    WorkShrinks(s, e);
  }

  /** From every state of the invariant with a command queued, every run of steps already under
      way that is long enough serves the oldest one, in whatever order they come ... */
  lemma {:induction false} LongRunsServe(run: seq<Sys>)
    requires IsInternalRun(run) && Inv(run[0]) && run[0].queue != [] && |run| > 1 + Work(run[0])
    ensures exists i :: 0 < i < |run| && run[i].queue == run[0].queue[1..]
    decreases Work(run[0])
  {
    var s, t := run[0], run[1];
    assert InternalNext(run[0], run[0 + 1]);
    InternalStep(s, t);
    if t.queue == s.queue && t.queue != s.queue[1..] {
      var rest := run[1..];
      forall i | 0 <= i < |rest| - 1 ensures InternalNext(rest[i], rest[i + 1]) {
        assert InternalNext(run[i + 1], run[i + 1 + 1]);
      }
      LongRunsServe(rest);
      var i :| 0 < i < |rest| && rest[i].queue == rest[0].queue[1..];
      assert run[i + 1].queue == run[0].queue[1..];
    }
  }

  /** ... and there are such runs, because the system does not come to rest before. */
  lemma {:induction false} OldestIsServed(s: Sys) returns (run: seq<Sys>)
    requires Inv(s) && s.queue != []
    ensures IsInternalRun(run) && run[0] == s
    ensures run[|run| - 1].queue == s.queue[1..]
    decreases Work(s)
  {
    var t := NeverAtRest(s);
    InternalStep(s, t);
    var rest := [t];
    if t.queue != s.queue[1..] {
      rest := OldestIsServed(t);
    }
    ExtendRun(s, rest);
    run := [s] + rest;
  }

  lemma ExtendRun(s: Sys, rest: seq<Sys>)
    requires IsInternalRun(rest) && InternalNext(s, rest[0])
    ensures IsInternalRun([s] + rest)
  {
    var run := [s] + rest;
    forall i | 0 <= i < |run| - 1
      ensures InternalNext(run[i], run[i + 1])
    {
      if i > 0 {
        assert InternalNext(rest[i - 1], rest[i - 1 + 1]);
      }
    }
  }

  // ---- commands are served in order -------------------------------------------------

  predicate Possible(s: Sys, es: seq<Step>)
    decreases |es|, 0
  {
    es == [] || (Possible(s, es[..|es| - 1]) && Enabled(After(s, es[..|es| - 1]), es[|es| - 1]))
  }

  function After(s: Sys, es: seq<Step>): Sys
    requires Possible(s, es)
    decreases |es|, 1
  {
    if es == [] then s else Do(After(s, es[..|es| - 1]), es[|es| - 1])
  }

  /** The commands enqueued, and those served, in order of time. */
  function Enqueued(es: seq<Step>): seq<nat> {
    if es == [] then []
    else Enqueued(es[..|es| - 1]) + if es[|es| - 1].Insert? then [es[|es| - 1].cmd] else []
  }

  function Served(s: Sys, es: seq<Step>): seq<nat>
    requires Possible(s, es)
  {
    if es == [] then []
    else Served(s, es[..|es| - 1]) + if es[|es| - 1].Dequeue? then [After(s, es[..|es| - 1]).queue[0]] else []
  }

  /** In every run the commands are served in the order they were enqueued in, each of them once. */
  lemma {:induction false} ServedInOrder(s: Sys, es: seq<Step>)
    requires Possible(s, es)
    ensures Served(s, es) + After(s, es).queue == s.queue + Enqueued(es)
  {
    if es != [] {
      var front, e := es[..|es| - 1], es[|es| - 1];
      ServedInOrder(s, front);
      var u := After(s, front);
      QueueStep(u, e);
      var f, q := Served(s, front), Enqueued(front);
      assert f + [] == f && q + [] == q;
      if e.Insert? {
        Regroup(f, u.queue, s.queue, q, [e.cmd]);
      } else if e.Dequeue? {
        assert u.queue == [u.queue[0]] + Do(u, e).queue;
        assert (f + [u.queue[0]]) + Do(u, e).queue == f + u.queue;
      }
    }
  }

  lemma Regroup(a: seq<nat>, b: seq<nat>, c: seq<nat>, d: seq<nat>, x: seq<nat>)
    requires a + b == c + d
    ensures a + (b + x) == c + (d + x)
  {
    assert a + (b + x) == (a + b) + x && c + (d + x) == (c + d) + x;
  }

  lemma QueueStep(s: Sys, e: Step)
    requires Enabled(s, e)
    ensures Do(s, e).queue == match e
      case Insert(cmd) => s.queue + [cmd]
      case Dequeue => s.queue[1..]
      case _ => s.queue
  {
  }

  // ---- the split sequences refine the locked functions ------------------------------

  /** Left alone by the interrupt, the register steps compute rtw_register_cmd_alive. */
  lemma RegisterRefines(s: Sys) returns (t: Sys)
    requires Enabled(s, Flag) && !s.pwr.stopped
    ensures var o := s.pwr.RegisterAlive(CmdAlive);
      t == Put(s, o).(thread := if o.ok then Draining else AtDown)
  {
    assert s.wire + [] == s.wire;
    t := Do(Do(s, Flag), Check);
    if t.thread == Refusing {
      t := Do(t, Decide);
      if t.thread.Requesting? {
        t := Do(t, Write);
      }
    }
  }

  /** Left alone by the interrupt, the leave steps compute the active-mode branch. */
  lemma LeaveRefines(s: Sys) returns (t: Sys)
    requires Enabled(s, LeaveLocked) && !s.pwr.stopped
    ensures t == Put(s, s.pwr.LeaveMode()).(leavers := s.leavers - 1, lock := HeldByLeaver, leaver := Waiting)
  {
    assert s.wire + [] == s.wire;
    t := Do(s, LeaveLocked);
    if t.leaver.Setting? {
      t := Do(t, LeaveWrite);
    }
  }

  // ---- the wait for S4 must not be cut short ----------------------------------------

  /** The branch of rtw_set_ps_mode that gives up waiting for S4. */
  function GiveUpWaiting(s: Sys): Sys {
    s.(leaver := Away, lock := Free, pwr := s.pwr.(fwInPs := false))
  }

  /** After giving up too early: everything is as in active mode, but an acknowledgement is
      still outstanding. */
  predicate TooEarly(s: Sys) {
    && s.lock == Free && !s.pwr.fwInPs && s.pwr.mode == MODE_ACTIVE && !s.pwr.stopped && s.pwr.rpwm == S4
    && s.thread in {AtDown, Woken, Draining, Emptied} && Pending(s) != []
  }

  ghost predicate Leads(s: Sys, t: Sys) {
    exists run :: IsRun(run) && run[0] == s && run[|run| - 1] == t
  }

  lemma LeadsOneMore(s: Sys, t: Sys, e: Step)
    requires Leads(s, t) && Enabled(t, e)
    ensures Leads(s, Do(t, e))
  {
    var run :| IsRun(run) && run[0] == s && run[|run| - 1] == t;
    var longer := run + [Do(t, e)];
    forall i | 0 <= i < |longer| - 1 ensures Next(longer[i], longer[i + 1]) {
      if i < |run| - 1 { assert Next(run[i], run[i + 1]); }
    }
    assert longer[0] == s && longer[|longer| - 1] == Do(t, e);
  }

  lemma LeadsNowhere(s: Sys)
    ensures Leads(s, s)
  {
    assert IsRun([s]);
  }

  /** The steps in which the tasks go quiet, with all else that counts left alone. */
  lemma QuietStep(s: Sys, t: Sys, e: Step) returns (u: Sys)
    requires Leads(s, t) && TooEarly(t) && Enabled(t, e)
    requires e.Insert? || e.Post? || e.Down? || e.Dequeue? || e.FindEmpty? || e.Unregister?
          || e.SendRegister? || e.SendDone? || e.TagOff?
    ensures u == Do(t, e) && Leads(s, u) && TooEarly(u) && u.wire == t.wire && u.acks == t.acks
  {
    u := Do(t, e);
    LeadsOneMore(s, t, e);
    assert t.wire + [] == t.wire;
  }

  /** Registering is let through, since the driver takes the firmware for awake. */
  lemma QuietRegister(s: Sys, t: Sys) returns (u: Sys)
    requires Leads(s, t) && TooEarly(t) && t.thread == Woken
    ensures Leads(s, u) && TooEarly(u) && u.thread == Draining
  {
    LeadsOneMore(s, t, Flag);
    var f := Do(t, Flag);
    LeadsOneMore(s, f, Check);
    u := Do(f, Check);
    assert Pending(u) == Pending(t);
  }

  lemma {:induction false} DrainAll(s: Sys, t: Sys) returns (u: Sys)
    requires Leads(s, t) && TooEarly(t) && t.thread == Draining
    ensures Leads(s, u) && TooEarly(u) && u.thread == AtDown && CmdAlive !in u.pwr.alives
    decreases |t.queue|
  {
    if t.queue != [] {
      u := QuietStep(s, t, Dequeue);
      u := DrainAll(s, u);
    } else {
      u := QuietStep(s, t, FindEmpty);
      u := QuietStep(s, u, Unregister);
    }
  }

  lemma ThreadGoesQuiet(s: Sys, t: Sys) returns (u: Sys)
    requires Leads(s, t) && TooEarly(t)
    ensures Leads(s, u) && TooEarly(u) && CmdAlive !in u.pwr.alives
  {
    u := t;
    if u.thread == Emptied {
      u := QuietStep(s, u, Unregister);
    } else {
      if u.thread == AtDown {
        u := QuietStep(s, u, Insert(0));
        u := QuietStep(s, u, Post);
        u := QuietStep(s, u, Down);
      }
      if u.thread == Woken { u := QuietRegister(s, u); }
      u := DrainAll(s, u);
    }
  }

  lemma SenderGoesQuiet(s: Sys, t: Sys) returns (u: Sys)
    requires Leads(s, t) && TooEarly(t) && CmdAlive !in t.pwr.alives
    ensures Leads(s, u) && TooEarly(u) && CmdAlive !in u.pwr.alives && XmitAlive !in u.pwr.alives
  {
    u := t;
    if u.sender != Sending { u := QuietStep(s, u, SendRegister); }
    u := QuietStep(s, u, SendDone);
  }

  lemma OthersGoQuiet(s: Sys, t: Sys) returns (u: Sys)
    requires Leads(s, t) && TooEarly(t) && CmdAlive !in t.pwr.alives
    ensures Leads(s, u) && TooEarly(u) && u.pwr.alives == {}
  {
    u := SenderGoesQuiet(s, t);
    u := QuietStep(s, u, TagOff(RecvAlive));
    u := QuietStep(s, u, TagOff(EvtAlive));
    NobodyAlive(u.pwr.alives);
  }

  lemma NobodyAlive(alives: set<Tag>)
    requires {XmitAlive, RecvAlive, CmdAlive, EvtAlive} !! alives
    ensures alives == {}
  {
    forall tag ensures tag !in alives {
      match tag
      case XmitAlive =>
      case RecvAlive =>
      case CmdAlive =>
      case EvtAlive =>
    }
  }

  /** LPS_Enter with nobody alive asks for sleep, over the outstanding acknowledgement. */
  lemma SleepsTooEarly(s: Sys, t: Sys) returns (u: Sys, v: Sys)
    requires Leads(s, t) && TooEarly(t) && t.pwr.alives == {}
    ensures Leads(s, u) && Next(u, v) && !SleepsOnlyWhenIdle(u, v)
  {
    u := Do(t, EnterCall);
    LeadsOneMore(s, t, EnterCall);
    v := Do(u, EnterLocked(1));
    assert Pending(u) == Pending(t);
    assert v.wire == u.wire + [Request(S0, u.pwr.tog, false)];
  }

  lemma UnsafeStep(s: Sys, u: Sys, v: Sys)
    requires Leads(s, u) && Next(u, v) && !SleepsOnlyWhenIdle(u, v)
    ensures !SafeFrom(s)
  {
    var run :| IsRun(run) && run[0] == s && run[|run| - 1] == u;
    var longer := run + [v];
    forall i | 0 <= i < |longer| - 1 ensures Next(longer[i], longer[i + 1]) {
      if i < |run| - 1 { assert Next(run[i], run[i + 1]); }
    }
    assert longer[|run| - 1] == u && longer[|run|] == v;
    assert !SafeRun(longer);
  }

  /** Giving up the wait is safe, whatever happens afterwards, if and only if there was nothing
      left to wait for. */
  lemma GivingUpIsSafeExactlyAtS4(s: Sys)
    requires Inv(s) && s.leaver == Waiting
    ensures SafeFrom(GiveUpWaiting(s)) <==> s.pwr.cpwm == S4
  {
    var t := GiveUpWaiting(s);
    assert Pending(t) == Pending(s);
    if s.pwr.cpwm == S4 {
      forall run | IsRun(run) && run[0] == t ensures SafeRun(run) {
        InvIsSafe(run);
      }
    } else {
      LeadsNowhere(t);
      var u := ThreadGoesQuiet(t, t);
      u := OthersGoQuiet(t, u);
      var x, y := SleepsTooEarly(t, u);
      UnsafeStep(t, x, y);
    }
  }

  /** A run in which the wait is given up with the acknowledgement outstanding:
      LPS_Enter, the firmware falls asleep, LPS_Leave, the wait ends too early. */
  const ASLEEP := Pwr(S0, S0, false, {}, 1, 2, true, false)
  const LEAVING := ASLEEP.(mode := MODE_ACTIVE, smartPs := 0)

  function Entering(): Sys { Init().(enterers := 1) }
  function Entered(): Sys { Init().(pwr := ASLEEP, wire := [Request(S0, true, false)]) }
  function Asleep(): Sys { Init().(pwr := ASLEEP, fw := S0) }
  function Calling(): Sys { Asleep().(leavers := 1) }
  function Locked(): Sys {
    Asleep().(pwr := LEAVING, lock := HeldByLeaver, leaver := Setting(true))
  }
  function Written(): Sys {
    Locked().(leaver := Waiting, pwr := LEAVING.(rpwm := S4, tog := true),
              wire := [Request(S4, false, true)])
  }
  function GaveUp(): Sys {
    Sys(Pwr(S4, S0, true, {}, MODE_ACTIVE, 0, false, false), Free,
        AtDown, Away, Quiet, NotSending, 0, [], 0, 0, 0, S0, [Request(S4, false, true)], [])
  }

  lemma Took(s: Sys, e: Step)
    requires Enabled(s, e)
    ensures Next(s, Do(s, e))
  {
  }

  lemma FallsAsleep()
    ensures Next(Init(), Entering()) && Next(Entering(), Entered()) && Next(Entered(), Asleep())
  {
    Took(Init(), EnterCall);
    Took(Entering(), EnterLocked(1));
    assert [] + [Request(S0, true, false)] == Entered().wire;
    Took(Entered(), FwTake);
    assert Entered().wire[1..] == [];
  }

  lemma StartsLeaving()
    ensures Next(Asleep(), Calling()) && Next(Calling(), Locked()) && Next(Locked(), Written())
  {
    Took(Asleep(), LeaveCall);
    Took(Calling(), LeaveLocked);
    Took(Locked(), LeaveWrite);
    assert [] + [Request(S4, false, true)] == Written().wire;
  }

  lemma GivingUpIsReachable() returns (run: seq<Sys>)
    ensures IsRun(run) && run[0] == Init() && run[|run| - 1].leaver == Waiting
    ensures GiveUpWaiting(run[|run| - 1]) == GaveUp()
  {
    FallsAsleep();
    StartsLeaving();
    run := [Init(), Entering(), Entered(), Asleep(), Calling(), Locked(), Written()];
  }

  /** After that, S0 is requested while the S4 acknowledgement is outstanding, and the
      command thread is later let through with the firmware asleep. */
  lemma GivingUpBreaksPowerSafety() returns (a: Sys, b: Sys, c: Sys)
    ensures a == Do(GaveUp(), EnterCall)
    ensures Enabled(a, EnterLocked(1)) && b == Do(a, EnterLocked(1)) && !SleepsOnlyWhenIdle(a, b)
    ensures Enabled(b, FwTake)
    ensures c.thread == Draining && c.fw < S2
  {
    a := Do(GaveUp(), EnterCall);
    assert a.wire[0].ack && |a.wire[1..]| == 0;
    assert |AckLevels(a.wire)| == 1;
    b := Do(a, EnterLocked(1));
    assert b.wire == [Request(S4, false, true), Request(S0, true, false)];
    c := LetThrough(b);
  }

  /** The firmware takes both requests and falls asleep; the report of the first lets the
      command thread through. */
  lemma LetThrough(b: Sys) returns (c: Sys)
    requires b.wire == [Request(S4, false, true), Request(S0, true, false)] && b.acks == [] && b.intr == Quiet
    requires b.thread == AtDown && b.lock == Free
    ensures c.thread == Draining && c.fw < S2
  {
    var d := Do(b, FwTake);
    assert d.wire == [Request(S0, true, false)] && d.acks == [S4];
    d := Do(d, FwTake);
    assert d.fw == S0 && d.acks == [S4];
    d := Do(Do(Do(Do(d, IntrReport), Insert(0)), Post), Down);
    c := Do(Do(d, Flag), Check);
  }
}
