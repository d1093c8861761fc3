/** The LCLK power-control block of core/rtw_pwrctrl.c: the driver's view of the
    firmware power state and the operations that change it under the power lock.

    Every operation is written twice: as a function on the value `Pwr`, which the
    interleaving model in CommandHandshake.dfy uses, and as a method of the class
    `PwrCtrl`, which updates the fields in place, is proved equal to the function, and says
    what its caller may rely on. */
module PowerControl {
  // PS_STATE_S0, PS_STATE_S2, PS_STATE_S4 and PS_MODE_ACTIVE of include/rtw_pwrctrl.h.
  const S0: nat := 1
  const S2: nat := 2
  const S4: nat := 12
  const MODE_ACTIVE: nat := 0

  /** The bits of `alives`. */
  datatype Tag = XmitAlive | RecvAlive | CmdAlive | EvtAlive

  /** A value written to the RPWM register: level, toggle bit and PS_ACK bit. */
  datatype Request = Request(level: nat, tog: bool, ack: bool)

  /** New state, the requests written to the register, and SUCCESS or FAIL. */
  datatype Outcome = Outcome(pwr: Pwr, sent: seq<Request>, ok: bool)

  datatype Pwr = Pwr(rpwm: nat, cpwm: nat, tog: bool, alives: set<Tag>,
                     mode: nat, smartPs: nat, fwInPs: bool, stopped: bool)
  {
    predicate NeedsAck(level: nat) {
      cpwm < S2 && level >= S2
    }

    // `stopped` is bDriverStopped or bSurpriseRemoved.

    /** The part of rtw_set_rpwm after the acknowledgement bit has been decided. */
    function WriteRpwm(level: nat, ack: bool): Pwr {
      this.(rpwm := level, tog := !tog, cpwm := if ack then cpwm else level)
    }

    function SetRpwm(level: nat): Outcome {
      if rpwm == level || stopped then Outcome(this, [], true)
      else
        var ack := NeedsAck(level);
        Outcome(WriteRpwm(level, ack), [Request(level, tog, ack)], true)
    }

    function RegisterAlive(tag: Tag): Outcome {
      var q := this.(alives := alives + {tag});
      if q.fwInPs && q.cpwm < S2 then
        (if q.rpwm < S2 then q.SetRpwm(S2).(ok := false) else Outcome(q, [], false))
      else Outcome(q, [], true)
    }

    function UnregisterAlive(tag: Tag): Outcome {
      var q := this.(alives := alives - {tag});
      if q.mode != MODE_ACTIVE && q.fwInPs && q.alives == {} && q.cpwm > S0 then q.SetRpwm(S0)
      else Outcome(q, [], true)
    }

    /** The locked part of rtw_set_ps_mode for a power-save mode. */
    function EnterMode(newMode: nat, newSmartPs: nat): Outcome {
      var q := this.(mode := newMode, smartPs := newSmartPs, fwInPs := true);
      if q.alives == {} then q.SetRpwm(S0) else Outcome(q, [], true)
    }

    /** The locked part of rtw_set_ps_mode for the active mode, up to the wait for S4. */
    function LeaveMode(): Outcome {
      this.(mode := MODE_ACTIVE, smartPs := 0).SetRpwm(S4)
    }
  }

  class PwrCtrl {
    var rpwm: nat
    var cpwm: nat
    var tog: bool
    var alives: set<Tag>
    var mode: nat
    var smartPs: nat
    var fwInPs: bool
    var stopped: bool        // bDriverStopped or bSurpriseRemoved
    var wire: seq<Request>   // what has been written to the RPWM register, oldest first

    function State(): Pwr
      reads this
    {
      Pwr(rpwm, cpwm, tog, alives, mode, smartPs, fwInPs, stopped)
    }

    /** The firmware tells a new request from an old one by the toggle bit, so it has to change
        with every write; rpwm is what was written last, and nothing is written twice in a row. */
    ghost predicate Valid()
      reads this
    {
      && (forall i :: 0 <= i < |wire| ==> wire[i].tog == (i % 2 == 0))
      && tog == (|wire| % 2 == 0)
      && rpwm == (if wire == [] then 0 else wire[|wire| - 1].level)
      && (forall i :: 0 < i < |wire| ==> wire[i].level != wire[i - 1].level)
    }

    /** rtw_init_pwrctrl_priv on zeroed memory. */
    constructor ()
      ensures Valid()
      ensures State() == Pwr(0, S4, true, {}, MODE_ACTIVE, 0, false, false)
      ensures wire == []
    {
      rpwm, cpwm, tog, alives := 0, S4, true, {};
      mode, smartPs, fwInPs := MODE_ACTIVE, 0, false;
      stopped, wire := false, [];
    }

    method SetRpwm(level: nat)
      requires Valid()
      modifies this
      ensures Valid() && (rpwm == level || stopped)
      ensures wire == old(wire) <==> old(rpwm) == level || stopped
      ensures wire != old(wire) ==>
        && wire == old(wire) + [Request(level, old(tog), old(cpwm) < S2 <= level)]
        && cpwm == if old(cpwm) < S2 <= level then old(cpwm) else level
      ensures wire == old(wire) ==> cpwm == old(cpwm)
      ensures var o := old(State()).SetRpwm(level);
        State() == o.pwr && wire == old(wire) + o.sent
    {
      if rpwm == level { return; }
      if stopped { return; }
      var ack := cpwm < S2 && level >= S2;
      rpwm := level;
      wire := wire + [Request(level, tog, ack)];
      tog := !tog;
      if !ack { cpwm := level; }
    }

    /** rtw_register_tx_alive and rtw_register_cmd_alive, which differ in the tag only. */
    method RegisterAlive(tag: Tag) returns (ok: bool)
      requires Valid()
      modifies this
      ensures Valid() && alives == old(alives) + {tag} && mode == old(mode) && fwInPs == old(fwInPs)
      ensures ok <==> !fwInPs || cpwm >= S2
      ensures !ok && !stopped ==> rpwm >= S2
      ensures var o := old(State()).RegisterAlive(tag);
        State() == o.pwr && wire == old(wire) + o.sent && ok == o.ok
    {
      ok := true;
      alives := alives + {tag};
      if fwInPs {
        if cpwm < S2 {
          if rpwm < S2 { SetRpwm(S2); }
          ok := false;
        }
      }
    }

    /** rtw_unregister_tx_alive and rtw_unregister_cmd_alive. */
    method UnregisterAlive(tag: Tag)
      requires Valid()
      modifies this
      ensures Valid() && alives == old(alives) - {tag} && mode == old(mode) && fwInPs == old(fwInPs)
      ensures wire != old(wire) ==> alives == {} && mode != MODE_ACTIVE && fwInPs && rpwm == S0
      ensures alives == {} && mode != MODE_ACTIVE && fwInPs && old(cpwm) > S0 && !stopped ==> rpwm == S0
      ensures var o := old(State()).UnregisterAlive(tag);
        State() == o.pwr && wire == old(wire) + o.sent
    {
      alives := alives - {tag};
      if mode != MODE_ACTIVE && fwInPs {
        if alives == {} && cpwm > S0 { SetRpwm(S0); }
      }
    }

    method EnterMode(newMode: nat, newSmartPs: nat)
      requires Valid()
      modifies this
      ensures Valid() && mode == newMode && smartPs == newSmartPs && fwInPs && alives == old(alives)
      ensures wire != old(wire) ==> alives == {} && rpwm == S0
      ensures alives == {} && !stopped ==> rpwm == S0
      ensures var o := old(State()).EnterMode(newMode, newSmartPs);
        State() == o.pwr && wire == old(wire) + o.sent
    {
      smartPs, mode, fwInPs := newSmartPs, newMode, true;
      if alives == {} { SetRpwm(S0); }
    }

    method LeaveMode()
      requires Valid()
      modifies this
      ensures Valid() && mode == MODE_ACTIVE && smartPs == 0 && alives == old(alives) && (rpwm == S4 || stopped)
      ensures var o := old(State()).LeaveMode();
        State() == o.pwr && wire == old(wire) + o.sent
    {
      smartPs, mode := 0, MODE_ACTIVE;
      SetRpwm(S4);
    }
  }
}
