/** What an access point keeps about the abilities of its stations (core/rtw_ap.c): six counters
    over flags kept for each station, the ERP element of the beacon and the HT operation mode. */
module ApStations {
  /** What a station says of itself when it associates. */
  datatype Report = Report(shortPreamble: bool, nonErp: bool, shortSlot: bool, ht: bool, greenfield: bool, wide: bool)

  /** The flags in its record: what it has been counted for. */
  datatype Flags = Flags(noShortPreamble: bool, nonErp: bool, noShortSlot: bool, noHt: bool, noGf: bool, ht20: bool)

  const CLEAR: Flags := Flags(false, false, false, false, false, false)

  datatype Counts = Counts(noShortPreamble: int, nonErp: int, noShortSlot: int, noHt: int, noGf: int, ht20: int)

  const NONE: Counts := Counts(0, 0, 0, 0, 0, 0)

  /** started: bstart_bss; erp: ERP_enable and an ERP element in the beacon; above11b:
      cur_wireless_mode > WIRELESS_11B; htOption: ht_option == TRUE; wide: the AP's own 40 MHz
      ability. */
  datatype Config = Config(started: bool, erp: bool, above11b: bool, htOption: bool, olbcHt: bool, wide: bool)

  /** The ERP element's byte and ht_op_mode, by their fields; see the lemmas about masks below. */
  datatype Erp = Erp(nonErpPresent: bool, useProtection: bool, barker: bool, others: bv8)

  datatype Op = PURE | MAY_BE_LEGACY | HT20_ASSOCIATED | MIXED

  datatype Mode = Mode(op: Op, nonGf: bool, nonHt: bool, others: bv8)

  const NO_MODE: Mode := Mode(PURE, false, false, 0)     // ht_op_mode = 0

  datatype Ap = Ap(counts: Counts, erp: Erp, mode: Mode)

  // ---- one station comes or goes --------------------------------------------------------

  function One(b: bool): int {
    if b then 1 else 0
  }

  /** The flags after a (re)association. Greenfield and width are only ever taken away. */
  function JoinedFlags(f: Flags, r: Report): Flags {
    WithHt(f.(noShortPreamble := !r.shortPreamble, nonErp := r.nonErp, noShortSlot := !r.shortSlot), r)
  }

  function WithHt(f: Flags, r: Report): Flags {
    f.(noHt := !r.ht, noGf := f.noGf || (r.ht && !r.greenfield), ht20 := f.ht20 || (r.ht && !r.wide))
  }

  function Recount(c: Counts, f: Flags, g: Flags): Counts {
    Counts(c.noShortPreamble + One(g.noShortPreamble) - One(f.noShortPreamble),
           c.nonErp + One(g.nonErp) - One(f.nonErp),
           c.noShortSlot + One(g.noShortSlot) - One(f.noShortSlot),
           c.noHt + One(g.noHt) - One(f.noHt),
           c.noGf + One(g.noGf) - One(f.noGf),
           c.ht20 + One(g.ht20) - One(f.ht20))
  }

  /** A flag was set and brought its counter to 1, or was cleared and brought it to 0. */
  predicate Turns(was: bool, now: bool, count: int) {
    was != now && count == One(now)
  }

  /** update_bcn_erpinfo_ie: the test is for exactly one non-ERP station. */
  function ErpUpdated(cfg: Config, erp: Erp, c: Counts): Erp {
    if !cfg.started || !cfg.erp then erp
    else Erp(c.nonErp == 1, c.nonErp == 1, c.noShortPreamble > 0, erp.others)
  }

  /** rtw_ht_operation_update: the new mode and the number of changes. */
  function HtUpdated(cfg: Config, mode: Mode, c: Counts): (Mode, int) {
    if cfg.htOption then (mode, 0)
    else
      var m := HtMode(cfg, c, mode.others);
      (m, One(m.nonGf != mode.nonGf) + One(m.nonHt != mode.nonHt) + One(m.op != mode.op))
  }

  /** The mode as a function of the counters alone (section 8.4.2.59 of IEEE 802.11-2012). */
  function HtMode(cfg: Config, c: Counts, others: bv8): Mode {
    Mode(if c.noHt != 0 || c.noGf != 0 then MIXED
         else if cfg.wide && c.ht20 != 0 then HT20_ASSOCIATED
         else if cfg.olbcHt then MAY_BE_LEGACY
         else PURE,
         c.noGf != 0,
         c.noHt != 0 || cfg.olbcHt,
         others)
  }

  /** One station's flags change from f to g. */
  function Stepped(cfg: Config, ap: Ap, f: Flags, g: Flags): Ap {
    var c := Recount(ap.counts, f, g);
    Ap(c,
       if Turns(f.nonErp, g.nonErp, c.nonErp) then ErpUpdated(cfg, ap.erp, c) else ap.erp,
       HtUpdated(cfg, ap.mode, c).0)
  }

  /** Recounting in two steps is recounting once; the HT flags do not touch the beacon. */
  lemma Telescopes(cfg: Config, c: Counts, f: Flags, g: Flags, h: Flags)
    requires g.noShortPreamble == h.noShortPreamble && g.nonErp == h.nonErp && g.noShortSlot == h.noShortSlot
    ensures Recount(Recount(c, f, g), g, h) == Recount(c, f, h)
    ensures BeaconUpdated(cfg, c, f, g) == BeaconUpdated(cfg, c, f, h)
    ensures forall erp :: ErpUpdated(cfg, erp, Recount(c, f, g)) == ErpUpdated(cfg, erp, Recount(c, f, h))
  {
  }

  /** The beacon_updated result. */
  function BeaconUpdated(cfg: Config, c: Counts, f: Flags, g: Flags): bool {
    var c' := Recount(c, f, g);
    || (cfg.above11b && Turns(f.noShortPreamble, g.noShortPreamble, c'.noShortPreamble))
    || Turns(f.nonErp, g.nonErp, c'.nonErp)
    || (cfg.above11b && Turns(f.noShortSlot, g.noShortSlot, c'.noShortSlot))
  }

  // ---- the code -------------------------------------------------------------------------

  class Station {
    var noShortPreamble: bool
    var nonErp: bool
    var noShortSlot: bool
    var noHt: bool
    var noGf: bool
    var ht20: bool

    function State(): Flags
      reads this
    {
      Flags(noShortPreamble, nonErp, noShortSlot, noHt, noGf, ht20)
    }

    constructor ()
      ensures State() == CLEAR
    {
      noShortPreamble, nonErp, noShortSlot, noHt, noGf, ht20 := false, false, false, false, false, false;
    }
  }

  class Mlme {
    var numNoShortPreamble: int
    var numNonErp: int
    var numNoShortSlot: int
    var numNoHt: int
    var numNoGf: int
    var numHt20: int
    var erp: Erp
    var opMode: Mode
    var cfg: Config

    function Counted(): Counts
      reads this
    {
      Counts(numNoShortPreamble, numNonErp, numNoShortSlot, numNoHt, numNoGf, numHt20)
    }

    function State(): Ap
      reads this
    {
      Ap(Counted(), erp, opMode)
    }

    /** start_ap_mode */
    method StartApMode()
      modifies this
      ensures Counted() == NONE && opMode == NO_MODE && erp == old(erp)
      ensures cfg == old(cfg).(started := false, olbcHt := false)
    {
      cfg := cfg.(started := false);
      numNonErp, numNoShortSlot, numNoShortPreamble, numNoGf, numNoHt, numHt20 := 0, 0, 0, 0, 0, 0;
      cfg := cfg.(olbcHt := false);
      opMode := NO_MODE;
    }

    /** update_beacon(_ERPINFO_IE_) */
    method UpdateErp()
      modifies this`erp
      ensures erp == ErpUpdated(cfg, old(erp), Counted())
    {
      if !cfg.started || !cfg.erp { return; }
      if numNonErp == 1 {
        erp := erp.(nonErpPresent := true, useProtection := true);
      } else {
        erp := erp.(nonErpPresent := false, useProtection := false);
      }
      if numNoShortPreamble > 0 { erp := erp.(barker := true); } else { erp := erp.(barker := false); }
    }

    /** rtw_ht_operation_update */
    method HtOperationUpdate() returns (changes: int)
      modifies this`opMode
      ensures (opMode, changes) == HtUpdated(cfg, old(opMode), Counted())
    {
      changes := 0;
      if cfg.htOption { return; }
      if !opMode.nonGf && numNoGf != 0 {
        opMode := opMode.(nonGf := true);
        changes := changes + 1;
      } else if opMode.nonGf && numNoGf == 0 {
        opMode := opMode.(nonGf := false);
        changes := changes + 1;
      }
      if !opMode.nonHt && (numNoHt != 0 || cfg.olbcHt) {
        opMode := opMode.(nonHt := true);
        changes := changes + 1;
      } else if opMode.nonHt && numNoHt == 0 && !cfg.olbcHt {
        opMode := opMode.(nonHt := false);
        changes := changes + 1;
      }
      var op;
      if numNoHt != 0 || opMode.nonGf {
        op := MIXED;
      } else if cfg.wide && numHt20 != 0 {
        op := HT20_ASSOCIATED;
      } else if cfg.olbcHt {
        op := MAY_BE_LEGACY;
      } else {
        op := PURE;
      }
      if opMode.op != op {
        opMode := opMode.(op := op);
        changes := changes + 1;
      }
    }

    method CountNoShortPreamble(sta: Station, no: bool) returns (updated: bool)
      modifies this`numNoShortPreamble, sta`noShortPreamble
      ensures sta.noShortPreamble == no
      ensures numNoShortPreamble == old(numNoShortPreamble) + One(no) - One(old(sta.noShortPreamble))
      ensures updated <==> cfg.above11b && Turns(old(sta.noShortPreamble), no, numNoShortPreamble)
    {
      updated := false;
      if no {
        if !sta.noShortPreamble {
          sta.noShortPreamble := true;
          numNoShortPreamble := numNoShortPreamble + 1;
          if cfg.above11b && numNoShortPreamble == 1 { updated := true; }
        }
      } else if sta.noShortPreamble {
        sta.noShortPreamble := false;
        numNoShortPreamble := numNoShortPreamble - 1;
        if cfg.above11b && numNoShortPreamble == 0 { updated := true; }
      }
    }

    method CountNonErp(sta: Station, nonErp: bool) returns (updated: bool)
      modifies this`numNonErp, this`erp, sta`nonErp
      ensures sta.nonErp == nonErp
      ensures numNonErp == old(numNonErp) + One(nonErp) - One(old(sta.nonErp))
      ensures updated <==> Turns(old(sta.nonErp), nonErp, numNonErp)
      ensures erp == if updated then ErpUpdated(cfg, old(erp), Counted()) else old(erp)
    {
      updated := false;
      if nonErp {
        if !sta.nonErp {
          sta.nonErp := true;
          numNonErp := numNonErp + 1;
          if numNonErp == 1 { updated := true; UpdateErp(); }
        }
      } else if sta.nonErp {
        sta.nonErp := false;
        numNonErp := numNonErp - 1;
        if numNonErp == 0 { updated := true; UpdateErp(); }
      }
    }

    method CountNoShortSlot(sta: Station, no: bool) returns (updated: bool)
      modifies this`numNoShortSlot, sta`noShortSlot
      ensures sta.noShortSlot == no
      ensures numNoShortSlot == old(numNoShortSlot) + One(no) - One(old(sta.noShortSlot))
      ensures updated <==> cfg.above11b && Turns(old(sta.noShortSlot), no, numNoShortSlot)
    {
      updated := false;
      if no {
        if !sta.noShortSlot {
          sta.noShortSlot := true;
          numNoShortSlot := numNoShortSlot + 1;
          if cfg.above11b && numNoShortSlot == 1 { updated := true; }
        }
      } else if sta.noShortSlot {
        sta.noShortSlot := false;
        numNoShortSlot := numNoShortSlot - 1;
        if cfg.above11b && numNoShortSlot == 0 { updated := true; }
      }
    }

    /** The HT part of a join: what an HT station cannot do is counted once. */
    method CountHt(sta: Station, r: Report)
      modifies this`numNoHt, this`numNoGf, this`numHt20, sta`noHt, sta`noGf, sta`ht20
      ensures sta.State() == WithHt(old(sta.State()), r)
      ensures Counted() == Recount(old(Counted()), old(sta.State()), sta.State())
    {
      if r.ht {
        if sta.noHt { sta.noHt := false; numNoHt := numNoHt - 1; }
        if !r.greenfield && !sta.noGf { sta.noGf := true; numNoGf := numNoGf + 1; }
        if !r.wide && !sta.ht20 { sta.ht20 := true; numHt20 := numHt20 + 1; }
      } else if !sta.noHt {
        sta.noHt := true;
        numNoHt := numNoHt + 1;
      }
    }

    method UncountHt(sta: Station)
      modifies this`numNoHt, this`numNoGf, this`numHt20, sta`noHt, sta`noGf, sta`ht20
      ensures sta.State() == old(sta.State()).(noHt := false, noGf := false, ht20 := false)
      ensures Counted() == Recount(old(Counted()), old(sta.State()), sta.State())
    {
      if sta.noGf { sta.noGf := false; numNoGf := numNoGf - 1; }
      if sta.noHt { sta.noHt := false; numNoHt := numNoHt - 1; }
      if sta.ht20 { sta.ht20 := false; numHt20 := numHt20 - 1; }
    }

    /** The part of joining and leaving that the beacon's legacy protection depends on. */
    method CountLegacy(sta: Station, noShortPreamble: bool, nonErp: bool, noShortSlot: bool) returns (updated: bool)
      modifies this`numNoShortPreamble, this`numNonErp, this`numNoShortSlot, this`erp
      modifies sta`noShortPreamble, sta`nonErp, sta`noShortSlot
      ensures sta.noShortPreamble == noShortPreamble && sta.nonErp == nonErp && sta.noShortSlot == noShortSlot
      ensures Counted() == Recount(old(Counted()), old(sta.State()), sta.State())
      ensures erp == if Turns(old(sta.nonErp), nonErp, numNonErp) then ErpUpdated(cfg, old(erp), Counted())
                     else old(erp)
      ensures updated == BeaconUpdated(cfg, old(Counted()), old(sta.State()), sta.State())
    {
      var preamble, turns, slot := CountFlags(sta, noShortPreamble, nonErp, noShortSlot);
      updated := preamble || turns || slot;
    }

    method CountFlags(sta: Station, noShortPreamble: bool, nonErp: bool, noShortSlot: bool)
      returns (preamble: bool, turns: bool, slot: bool)
      modifies this`numNoShortPreamble, this`numNonErp, this`numNoShortSlot, this`erp
      modifies sta`noShortPreamble, sta`nonErp, sta`noShortSlot
      ensures sta.noShortPreamble == noShortPreamble && sta.nonErp == nonErp && sta.noShortSlot == noShortSlot
      ensures Counted() == Recount(old(Counted()), old(sta.State()), sta.State())
      ensures erp == if turns then ErpUpdated(cfg, old(erp), Counted()) else old(erp)
      ensures preamble <==> cfg.above11b && Turns(old(sta.noShortPreamble), noShortPreamble, numNoShortPreamble)
      ensures turns <==> Turns(old(sta.nonErp), nonErp, numNonErp)
      ensures slot <==> cfg.above11b && Turns(old(sta.noShortSlot), noShortSlot, numNoShortSlot)
    {
      preamble := CountNoShortPreamble(sta, noShortPreamble);
      turns := CountNonErp(sta, nonErp);
      slot := CountNoShortSlot(sta, noShortSlot);
    }

    /** bss_cap_update_on_sta_join */
    method StaJoin(sta: Station, r: Report) returns (updated: bool)
      modifies this`numNoShortPreamble, this`numNonErp, this`numNoShortSlot, this`numNoHt, this`numNoGf, this`numHt20
      modifies this`erp, this`opMode, sta
      ensures sta.State() == JoinedFlags(old(sta.State()), r)
      ensures State() == Stepped(cfg, old(State()), old(sta.State()), sta.State())
      ensures updated == BeaconUpdated(cfg, old(Counted()), old(sta.State()), sta.State())
    {
      ghost var c, f := Counted(), sta.State();
      updated := CountLegacy(sta, !r.shortPreamble, r.nonErp, !r.shortSlot);
      ghost var g := sta.State();
      CountHt(sta, r);
      Telescopes(cfg, c, f, g, sta.State());
      var changes := HtOperationUpdate();
    }

    /** bss_cap_update_on_sta_leave */
    method StaLeave(sta: Station) returns (updated: bool)
      modifies this`numNoShortPreamble, this`numNonErp, this`numNoShortSlot, this`numNoHt, this`numNoGf, this`numHt20
      modifies this`erp, this`opMode, sta
      ensures sta.State() == CLEAR
      ensures State() == Stepped(cfg, old(State()), old(sta.State()), CLEAR)
      ensures updated == BeaconUpdated(cfg, old(Counted()), old(sta.State()), CLEAR)
    {
      ghost var c, f := Counted(), sta.State();
      updated := CountLegacy(sta, false, false, false);
      ghost var g := sta.State();
      UncountHt(sta);
      Telescopes(cfg, c, f, g, sta.State());
      var changes := HtOperationUpdate();
    }
  }

  // ---- the bytes behind the fields --------------------------------------------------------

  const NON_ERP_PRESENT: bv8 := 1
  const USE_PROTECTION: bv8 := 2
  const BARKER: bv8 := 4

  // The low byte of ht_op_mode; its high byte is never touched.
  const OP_MODE: bv8 := 3         // HT_INFO_OPERATION_MODE_OP_MODE_MASK
  const NON_GF: bv8 := 4          // HT_INFO_OPERATION_MODE_NON_GF_DEVS_PRESENT
  const NON_HT: bv8 := 16         // HT_INFO_OPERATION_MODE_NON_HT_STA_PRESENT

  function ErpFields(e: bv8): Erp {
    Erp(e & NON_ERP_PRESENT != 0, e & USE_PROTECTION != 0, e & BARKER != 0, e & 0xF8)
  }

  function OpBits(op: Op): bv8 {
    match op case PURE => 0 case MAY_BE_LEGACY => 1 case HT20_ASSOCIATED => 2 case MIXED => 3
  }

  function ModeFields(m: bv8): Mode {
    Mode(if m & OP_MODE == 0 then PURE else if m & OP_MODE == 1 then MAY_BE_LEGACY
         else if m & OP_MODE == 2 then HT20_ASSOCIATED else MIXED,
         m & NON_GF != 0, m & NON_HT != 0, m & 0xE8)
  }

  /** Setting and clearing a mask is setting and clearing a field. */
  lemma ErpMasks(e: bv8)
    ensures ErpFields(e | (NON_ERP_PRESENT | USE_PROTECTION))
         == ErpFields(e).(nonErpPresent := true, useProtection := true)
    ensures ErpFields(e & !(NON_ERP_PRESENT | USE_PROTECTION))
         == ErpFields(e).(nonErpPresent := false, useProtection := false)
    ensures ErpFields(e | BARKER) == ErpFields(e).(barker := true)
    ensures ErpFields(e & !BARKER) == ErpFields(e).(barker := false)
  {
  }

  lemma ModeMasks(m: bv8)
    ensures ModeFields(m | NON_GF) == ModeFields(m).(nonGf := true)
    ensures ModeFields(m & !NON_GF) == ModeFields(m).(nonGf := false)
    ensures ModeFields(m | NON_HT) == ModeFields(m).(nonHt := true)
    ensures ModeFields(m & !NON_HT) == ModeFields(m).(nonHt := false)
  {
  }

  lemma OpMask(m: bv8, op: Op)
    ensures ModeFields((m & !OP_MODE) | OpBits(op)) == ModeFields(m).(op := op)
    ensures m & OP_MODE == OpBits(op) <==> ModeFields(m).op == op
  {
  }
}
