/** Whole runs of stations joining, joining again and leaving. */
module ApRuns {
  import opened ApStations

  type Id = nat

  datatype Event = Join(id: Id, report: Report) | Leave(id: Id)

  datatype World = World(cfg: Config, ap: Ap, stations: map<Id, Flags>)

  /** A station record is new, with clear flags, until its station has joined. */
  function FlagsOf(w: World, id: Id): Flags {
    if id in w.stations then w.stations[id] else CLEAR
  }

  function After(w: World, e: Event): Flags {
    match e case Join(id, r) => JoinedFlags(FlagsOf(w, id), r) case Leave(id) => CLEAR
  }

  function Next(w: World, e: Event): World {
    World(w.cfg, Stepped(w.cfg, w.ap, FlagsOf(w, e.id), After(w, e)),
          if e.Join? then w.stations[e.id := After(w, e)] else w.stations - {e.id})
  }

  function Run(w: World, es: seq<Event>): World {
    if es == [] then w else Next(Run(w, es[..|es| - 1]), es[|es| - 1])
  }

  /** start_ap_mode, and then the BSS is started. */
  function Start(cfg: Config, erp: Erp): World {
    World(cfg, Ap(NONE, erp, NO_MODE), map[])
  }

  datatype Kind = NoShortPreamble | NonErp | NoShortSlot | NoHt | NoGf | Ht20

  predicate Has(f: Flags, k: Kind) {
    match k
    case NoShortPreamble => f.noShortPreamble
    case NonErp => f.nonErp
    case NoShortSlot => f.noShortSlot
    case NoHt => f.noHt
    case NoGf => f.noGf
    case Ht20 => f.ht20
  }

  function Count(c: Counts, k: Kind): int {
    match k
    case NoShortPreamble => c.noShortPreamble
    case NonErp => c.nonErp
    case NoShortSlot => c.noShortSlot
    case NoHt => c.noHt
    case NoGf => c.noGf
    case Ht20 => c.ht20
  }

  function Having(m: map<Id, Flags>, k: Kind): set<Id> {
    set id | id in m && Has(m[id], k)
  }

  /** Each counter is the number of stations with its flag. */
  predicate Exact(w: World) {
    forall k :: Count(w.ap.counts, k) == |Having(w.stations, k)|
  }

  lemma HavingNext(w: World, e: Event, k: Kind)
    ensures |Having(Next(w, e).stations, k)|
         == |Having(w.stations, k)| + One(Has(After(w, e), k)) - One(Has(FlagsOf(w, e.id), k))
  {
    var before, after := Having(w.stations, k), Having(Next(w, e).stations, k);
    assert Has(CLEAR, k) == false;
    assert e.id in before <==> Has(FlagsOf(w, e.id), k);
    assert e.id in after <==> Has(After(w, e), k);
    OneDiffers(before, after, e.id);
  }

  lemma OneDiffers(a: set<Id>, b: set<Id>, x: Id)
    requires forall y :: y != x ==> (y in a <==> y in b)
    ensures |b| == |a| + One(x in b) - One(x in a)
  {
    assert a - {x} == b - {x};
    assert |a| == |a - {x}| + One(x in a);
    assert |b| == |b - {x}| + One(x in b);
  }

  lemma ExactStep(w: World, e: Event)
    requires Exact(w)
    ensures Exact(Next(w, e))
  {
    forall k ensures Count(Next(w, e).ap.counts, k) == |Having(Next(w, e).stations, k)| {
      HavingNext(w, e, k);
      assert Count(w.ap.counts, k) == |Having(w.stations, k)|;
    }
  }

  /** The protection bits are on exactly while there is a non-ERP station, although the updater
      looks for exactly one. */
  predicate Protected(w: World) {
    w.cfg.started && w.cfg.erp ==>
      && w.ap.erp.nonErpPresent == (w.ap.counts.nonErp > 0)
      && w.ap.erp.useProtection == (w.ap.counts.nonErp > 0)
  }

  lemma ProtectedStep(w: World, e: Event)
    requires Exact(w) && Protected(w)
    ensures Protected(Next(w, e))
  {
    ExactStep(w, e);
    assert Count(w.ap.counts, NonErp) == |Having(w.stations, NonErp)|;
    assert Count(Next(w, e).ap.counts, NonErp) == |Having(Next(w, e).stations, NonErp)|;
  }

  /** The HT operation mode follows from the counters as they stand. */
  predicate HtCurrent(w: World) {
    w.ap.mode == HtMode(w.cfg, w.ap.counts, w.ap.mode.others)
  }

  /** Whatever the mode was before, one join or leave makes it current; another update would
      change nothing. */
  lemma HtHistoryFree(w: World, e: Event)
    requires !w.cfg.htOption
    ensures var v := Next(w, e);
      && HtCurrent(v) && v.ap.mode.others == w.ap.mode.others
      && HtUpdated(v.cfg, v.ap.mode, v.ap.counts) == (v.ap.mode, 0)
  {
  }

  /** Over every run of joins, rejoins and leaves. */
  lemma {:induction false} EveryRun(cfg: Config, erp: Erp, es: seq<Event>)
    requires !erp.nonErpPresent && !erp.useProtection && !cfg.olbcHt
    ensures var w := Run(Start(cfg, erp), es);
      && w.cfg == cfg && Exact(w) && Protected(w)
      && (if cfg.htOption then w.ap.mode == NO_MODE else HtCurrent(w) && w.ap.mode.others == 0)
      && w.ap.erp.others == erp.others && (!cfg.started || !cfg.erp ==> w.ap.erp == erp)
  {
    var s := Start(cfg, erp);
    if es == [] {
      forall k ensures Count(NONE, k) == |Having(s.stations, k)| {
        assert Having(s.stations, k) == {};
      }
    } else {
      var w, e := Run(s, es[..|es| - 1]), es[|es| - 1];
      EveryRun(cfg, erp, es[..|es| - 1]);
      ExactStep(w, e);
      ProtectedStep(w, e);
      if !cfg.htOption { HtHistoryFree(w, e); }
    }
  }

  // ---- the stations behind the flags ------------------------------------------------------

  /** What a station says of itself that it can be flagged for. */
  predicate Reports(r: Report, k: Kind) {
    match k
    case NoShortPreamble => !r.shortPreamble
    case NonErp => r.nonErp
    case NoShortSlot => !r.shortSlot
    case NoHt => !r.ht
    case NoGf => r.ht && !r.greenfield
    case Ht20 => r.ht && !r.wide
  }

  predicate SaidAt(es: seq<Event>, i: nat, id: Id, k: Kind)
    requires i < |es|
  {
    es[i].Join? && es[i].id == id && Reports(es[i].report, k) && forall j :: i < j < |es| ==> es[j].id != id
  }

  /** The station's last event is a join that says so; `before`: it has none, and was flagged. */
  predicate SaidLast(es: seq<Event>, id: Id, k: Kind, before: bool) {
    || (before && forall j :: 0 <= j < |es| ==> es[j].id != id)
    || exists i :: 0 <= i < |es| && SaidAt(es, i, id, k)
  }

  /** Over every run: a station is counted as lacking short preamble, short slot time or HT, or as
      non-ERP, if and only if its last event is a join that says so. */
  lemma {:induction false} FlagsFollowReports(w: World, es: seq<Event>, id: Id, k: Kind)
    requires k != NoGf && k != Ht20
    ensures Has(FlagsOf(Run(w, es), id), k) <==> SaidLast(es, id, k, Has(FlagsOf(w, id), k))
  {
    if es != [] {
      var n := |es| - 1;
      var front, before := es[..n], Has(FlagsOf(w, id), k);
      FlagsFollowReports(w, front, id, k);
      SaidStep(es, front, n, id, k, before);
      FlagSaid(Run(w, front), es[n], id, k);
    }
  }

  lemma FlagSaid(w: World, e: Event, id: Id, k: Kind)
    requires k != NoGf && k != Ht20
    ensures Has(FlagsOf(Next(w, e), id), k)
       <==> if e.id == id then e.Join? && Reports(e.report, k) else Has(FlagsOf(w, id), k)
  {
  }

  lemma SaidStep(es: seq<Event>, front: seq<Event>, n: nat, id: Id, k: Kind, before: bool)
    requires |es| == n + 1 && front == es[..n]
    ensures SaidLast(es, id, k, before)
       <==> if es[n].id == id then es[n].Join? && Reports(es[n].report, k) else SaidLast(front, id, k, before)
  {
    assert forall j :: 0 <= j < n ==> front[j] == es[j];
    if es[n].id == id && es[n].Join? && Reports(es[n].report, k) { assert SaidAt(es, n, id, k); }
    forall i | 0 <= i < n ensures SaidAt(es, i, id, k) <==> SaidAt(front, i, id, k) && es[n].id != id {
    }
  }

  lemma HavingMeans(w: World, k: Kind, id: Id)
    ensures id in Having(w.stations, k) <==> Has(FlagsOf(w, id), k)
  {
  }

  /** So over every run the protection bits are on if and only if there is a station whose last
      event is a join as a non-ERP one. */
  lemma ProtectedForNonErp(cfg: Config, erp: Erp, es: seq<Event>)
    requires !erp.nonErpPresent && !erp.useProtection && !cfg.olbcHt && cfg.started && cfg.erp
    ensures var e := Run(Start(cfg, erp), es).ap.erp;
      && (e.nonErpPresent <==> exists id :: SaidLast(es, id, NonErp, false))
      && (e.useProtection <==> exists id :: SaidLast(es, id, NonErp, false))
  {
    var w := Run(Start(cfg, erp), es);
    EveryRun(cfg, erp, es);
    assert Count(w.ap.counts, NonErp) == |Having(w.stations, NonErp)|;
    forall id ensures id in Having(w.stations, NonErp) <==> SaidLast(es, id, NonErp, false) {
      FlagsFollowReports(Start(cfg, erp), es, id, NonErp);
      HavingMeans(w, NonErp, id);
    }
    if Having(w.stations, NonErp) != {} {
      var id :| id in Having(w.stations, NonErp);
      assert SaidLast(es, id, NonErp, false);
    }
  }

  /** What a current HT mode says of the stations (section 8.4.2.59 of IEEE 802.11-2012). */
  lemma HtModeMeans(w: World)
    requires Exact(w) && HtCurrent(w)
    ensures var m, s := w.ap.mode, w.stations;
      && (m.nonGf <==> Having(s, NoGf) != {})
      && (m.nonHt <==> Having(s, NoHt) != {} || w.cfg.olbcHt)
      && (m.op == MIXED <==> Having(s, NoHt) != {} || Having(s, NoGf) != {})
      && (m.op == HT20_ASSOCIATED <==>
            Having(s, NoHt) == {} == Having(s, NoGf) && w.cfg.wide && Having(s, Ht20) != {})
      && (m.op == MAY_BE_LEGACY <==>
            Having(s, NoHt) == {} == Having(s, NoGf) && !(w.cfg.wide && Having(s, Ht20) != {}) && w.cfg.olbcHt)
  {
    assert Count(w.ap.counts, NoHt) == |Having(w.stations, NoHt)|;
    assert Count(w.ap.counts, NoGf) == |Having(w.stations, NoGf)|;
    assert Count(w.ap.counts, Ht20) == |Having(w.stations, Ht20)|;
  }

  predicate None(w: World, k: Kind) {
    Having(w.stations, k) == {}
  }

  /** The beacon is reported as updated exactly when the first non-ERP station comes or the last one
      goes, or above 802.11b the first or last one without short preamble or short slot time. */
  lemma BeaconUpdatedExactly(w: World, e: Event)
    requires Exact(w)
    ensures var v := Next(w, e);
      BeaconUpdated(w.cfg, w.ap.counts, FlagsOf(w, e.id), After(w, e)) <==>
        || None(w, NonErp) != None(v, NonErp)
        || (w.cfg.above11b && (None(w, NoShortPreamble) != None(v, NoShortPreamble)
                               || None(w, NoShortSlot) != None(v, NoShortSlot)))
  {
    TurnsExactly(w, e, NonErp);
    TurnsExactly(w, e, NoShortPreamble);
    TurnsExactly(w, e, NoShortSlot);
  }

  lemma TurnsExactly(w: World, e: Event, k: Kind)
    requires Exact(w)
    ensures var v := Next(w, e);
      Turns(Has(FlagsOf(w, e.id), k), Has(After(w, e), k), Count(v.ap.counts, k)) <==> None(w, k) != None(v, k)
  {
    var v := Next(w, e);
    ExactStep(w, e);
    assert Count(w.ap.counts, k) == |Having(w.stations, k)|;
    assert Count(v.ap.counts, k) == |Having(v.stations, k)|;
    HavingNext(w, e, k);
    HavingMeans(w, k, e.id);
    HavingMeans(v, k, e.id);
  }

  // ---- what is not kept -----------------------------------------------------------------

  /** The Barker preamble bit says whether a station lacks the short preamble. */
  predicate BarkerRight(w: World) {
    w.ap.erp.barker == (w.ap.counts.noShortPreamble > 0)
  }

  /** A step refreshes the ERP element only on the first and the last non-ERP station. So a
      right Barker bit stays right exactly when the step does that, or leaves unchanged whether
      there is a station without short preamble. */
  lemma BarkerStaysRight(w: World, e: Event)
    requires w.cfg.started && w.cfg.erp && BarkerRight(w)
    ensures var v := Next(w, e);
      BarkerRight(v) <==>
        || Turns(FlagsOf(w, e.id).nonErp, After(w, e).nonErp, v.ap.counts.nonErp)
        || (v.ap.counts.noShortPreamble > 0) == (w.ap.counts.noShortPreamble > 0)
  {
  }

  /** One ERP station without the short preamble is enough to make it wrong. */
  lemma BarkerGoesStale(w: World, id: Id, r: Report)
    requires w.cfg.started && w.cfg.erp && w.stations == map[] && w.ap.counts == NONE && !w.ap.erp.barker
    requires !r.shortPreamble && !r.nonErp
    ensures var v := Next(w, Join(id, r));
      BarkerRight(w) && v.ap.counts.noShortPreamble == 1 && !BarkerRight(v)
  {
  }

  // What an HT station lacks in greenfield and width.

  predicate Lacks(e: Event, id: Id, k: Kind)
    requires k == NoGf || k == Ht20
  {
    e.Join? && e.id == id && Reports(e.report, k)
  }

  predicate LackedAt(es: seq<Event>, i: nat, id: Id, k: Kind)
    requires i < |es| && (k == NoGf || k == Ht20)
  {
    Lacks(es[i], id, k) && forall j :: i < j < |es| ==> es[j] != Leave(id)
  }

  /** One of its joins since it last left lacked it; `before`: it already counted as lacking it
      and has not left. */
  predicate LackedSince(es: seq<Event>, id: Id, k: Kind, before: bool)
    requires k == NoGf || k == Ht20
  {
    || (before && forall j :: 0 <= j < |es| ==> es[j] != Leave(id))
    || exists i :: 0 <= i < |es| && LackedAt(es, i, id, k)
  }

  /** Over every run: a station is counted as lacking greenfield or width if and only if some
      join since it last left was an HT one without it, whatever it said when it joined again. */
  lemma {:induction false} LacksStickUntilLeave(w: World, es: seq<Event>, id: Id, k: Kind)
    requires k == NoGf || k == Ht20
    ensures Has(FlagsOf(Run(w, es), id), k) <==> LackedSince(es, id, k, Has(FlagsOf(w, id), k))
    ensures es != [] && es[|es| - 1] == Leave(id) ==> FlagsOf(Run(w, es), id) == CLEAR
  {
    if es != [] {
      var n := |es| - 1;
      var front, before := es[..n], Has(FlagsOf(w, id), k);
      LacksStickUntilLeave(w, front, id, k);
      LackedStep(es, front, n, id, k, before);
      FlagStep(Run(w, front), es[n], id, k);
    }
  }

  lemma FlagStep(w: World, e: Event, id: Id, k: Kind)
    requires k == NoGf || k == Ht20
    ensures Has(FlagsOf(Next(w, e), id), k) <==> Lacks(e, id, k) || (Has(FlagsOf(w, id), k) && e != Leave(id))
  {
  }

  lemma LackedStep(es: seq<Event>, front: seq<Event>, n: nat, id: Id, k: Kind, before: bool)
    requires |es| == n + 1 && front == es[..n] && (k == NoGf || k == Ht20)
    ensures LackedSince(es, id, k, before)
       <==> Lacks(es[n], id, k) || (LackedSince(front, id, k, before) && es[n] != Leave(id))
  {
    assert forall j :: 0 <= j < n ==> front[j] == es[j];
    if Lacks(es[n], id, k) { assert LackedAt(es, n, id, k); }
    forall i | 0 <= i < n ensures LackedAt(es, i, id, k) <==> LackedAt(front, i, id, k) && es[n] != Leave(id) {
    }
  }

  /** Joining and then leaving gives back the counters and flags of a station unknown before,
      and the HT mode where it was current. */
  lemma JoinThenLeave(w: World, id: Id, r: Report)
    requires id !in w.stations && Exact(w) && Protected(w) && !w.cfg.htOption && HtCurrent(w)
    ensures var v := Next(Next(w, Join(id, r)), Leave(id));
      && v.stations == w.stations && v.ap.counts == w.ap.counts && v.ap.mode == w.ap.mode
      && (w.cfg.started && w.cfg.erp ==>
            v.ap.erp.nonErpPresent == w.ap.erp.nonErpPresent && v.ap.erp.useProtection == w.ap.erp.useProtection)
  {
    var u := Next(w, Join(id, r));
    ExactStep(w, Join(id, r));
    ProtectedStep(w, Join(id, r));
    ProtectedStep(u, Leave(id));
  }
}
