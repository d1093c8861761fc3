/** The group-owner negotiation of two P2P devices (core/rtw_p2p.c, core/rtw_mlme_ext.c):
    request, response and confirmation, any of which may get lost or be repeated. */
module GoNego {
  import opened Wrappers

  const MAX_INTENT: nat := 15

  datatype Role = DEVICE | CLIENT | GO

  /** The states the negotiation tells apart; Other stands for listening, searching and so on. */
  datatype State = Off | RxProvDiscReq | Ing | Ok | Fail | TxNotReady | RxNotReady | Other(n: nat)

  datatype Status = SUCCESS | INFO_UNAVAILABLE | INCOMPATIBLE | NO_COMMON_CH | BOTH_15

  /** The part of wifidirect_info concerned. An intent byte is twice the intent plus the tie
      breaker bit. `armed`: the restore timer is running. */
  datatype Device = Device(state: State, pre: State, role: Role, intent: nat, peerIntent: nat, armed: bool)

  /** What a device finds when it evaluates a frame, besides the values of intent and status: a WPS
      element, WPS information of its own from the user (ready), a P2P element, a GO intent in it,
      and acceptable channels. */
  datatype Content = Content(wps: bool, ready: bool, p2p: bool, intent: bool, channels: bool)

  const FINE: Content := Content(true, true, true, true, true)

  /** rtw_p2p_nego_intent_compare: the requester becomes GO. */
  predicate RequesterWins(req: nat, resp: nat) {
    if req / 2 == resp / 2 then req % 2 == 1 else req / 2 > resp / 2
  }

  /** The role a device takes against a peer's intent byte. */
  function RoleAgainst(intent: nat, peer: nat): Role {
    if intent == peer / 2 then (if peer % 2 == 1 then CLIENT else GO)
    else if intent > peer / 2 then GO else CLIENT
  }

  predicate Both15(intent: nat, peer: nat) {
    intent == peer / 2 && intent == MAX_INTENT
  }

  function RoleFor(intent: nat, peer: nat): Role {
    if Both15(intent, peer) then DEVICE else RoleAgainst(intent, peer)
  }

  // ---- the handlers as functions --------------------------------------------------------

  /** A request arrives: the new state and the status of the response. */
  function GotReq(d: Device, peer: nat, c: Content): (Device, Status) {
    var d1 := if d.state == RxProvDiscReq || d.state == Fail then d.(state := d.pre) else d;
    var d2 := (if d1.state != Ing then d1.(pre := d1.state) else d1).(armed := true);
    if !c.wps then (d2.(state := Fail), INCOMPATIBLE)
    else if !c.ready then (d2.(state := TxNotReady), INFO_UNAVAILABLE)
    else if !c.p2p then (d2.(state := Fail), INCOMPATIBLE)
    else
      var d3 := if c.intent then d2.(peerIntent := peer, role := RoleFor(d.intent, peer)) else d2;
      if !c.channels then (d3.(state := Fail), NO_COMMON_CH)
      else (d3.(state := Ing), if c.intent && Both15(d.intent, peer) then BOTH_15 else SUCCESS)
  }

  /** The intent byte of the response: the tie breaker is the opposite of the request's. */
  function RespByte(d: Device): nat {
    2 * d.intent + if d.peerIntent % 2 == 1 then 0 else 1
  }

  /** A response arrives while negotiating: the new state and the status of the confirmation.
      A missing WPS element does not stop the evaluation. */
  function GotResp(d: Device, status: Status, peer: nat, c: Content): (Device, Status) {
    var (d1, s1) := if !c.wps then (d.(state := Fail), INCOMPATIBLE) else (d, SUCCESS);
    var (d2, s2) :=
      if !c.p2p then (d1.(role := DEVICE, state := Fail), INCOMPATIBLE)
      else if status != SUCCESS then
        (d1.(role := DEVICE, state := if status == INFO_UNAVAILABLE then RxNotReady else Fail), status)
      else
        var d3 :=
          if !c.intent then d1
          else if Both15(d.intent, peer) then d1.(peerIntent := peer, role := DEVICE, state := Fail)
          else d1.(peerIntent := peer, role := RoleAgainst(d.intent, peer), state := Ok, pre := Ok);
        if !c.channels then (d3.(state := Fail), NO_COMMON_CH)
        else (d3, if c.intent && Both15(d.intent, peer) then BOTH_15 else s1);
    (d2.(armed := d2.state == Fail), s2)
  }

  function GotConf(d: Device, status: Status): Device {
    if status == SUCCESS then d.(armed := false, state := Ok, pre := Ok, role := RoleAgainst(d.intent, d.peerIntent))
    else d.(role := DEVICE, state := Fail)
  }

  /** restore_p2p_state_handler, when its timer runs out. */
  function Restored(d: Device): Device {
    d.(role := if d.state == Ing || d.state == Fail then DEVICE else d.role, state := d.pre, armed := false)
  }

  // ---- what the answers mean ----------------------------------------------------------

  // An intent byte is 2 * k + t for the intent k and the tie breaker t.

  /** The higher intent becomes GO; between equal ones the side whose tie breaker is set. Two
      intents of 15 leave both a device. */
  predicate Judged(role: Role, intent: nat, k: nat, t: nat) {
    && (role == DEVICE <==> intent == 15 && k == 15)
    && (role == GO <==> intent > k || (intent == k != 15 && t == 0))
  }

  /** After a request: why it is refused, and else the role. */
  lemma ReqMeans(d: Device, k: nat, t: nat, c: Content)
    requires t < 2
    ensures var (n, status) := GotReq(d, 2 * k + t, c); var judged := c.wps && c.ready && c.p2p;
      && (status == INFO_UNAVAILABLE <==> c.wps && !c.ready)
      && (status == INCOMPATIBLE <==> !c.wps || (c.ready && !c.p2p))
      && (status == NO_COMMON_CH <==> judged && !c.channels)
      && (status == BOTH_15 <==> judged && c.channels && c.intent && d.intent == 15 == k)
      && n.state == (if status == SUCCESS || status == BOTH_15 then Ing
                     else if status == INFO_UNAVAILABLE then TxNotReady else Fail)
      && n.pre == (if d.state in {RxProvDiscReq, Ing, Fail} then d.pre else d.state)
      && n.armed && n.intent == d.intent
      && (if judged && c.intent then n.peerIntent == 2 * k + t && Judged(n.role, d.intent, k, t)
          else n.peerIntent == d.peerIntent && n.role == d.role)
  {
  }

  /** After a response: a refusal for lack of information leaves the device waiting for it, any
      other one leaves it failed. */
  lemma RespMeans(d: Device, status: Status, k: nat, t: nat, c: Content)
    requires t < 2 && d.state == Ing
    ensures var (n, s) := GotResp(d, status, 2 * k + t, c); var judged := c.p2p && status == SUCCESS;
      && (n.state == RxNotReady <==> c.p2p && status == INFO_UNAVAILABLE)
      && (n.state == Ok <==> judged && c.channels && c.intent && !(d.intent == 15 == k))
      && (n.state == Ing <==> judged && c.channels && !c.intent && c.wps)
      && n.state in {RxNotReady, Ok, Ing, Fail}
      && (s == SUCCESS <==> judged && c.channels && c.wps && !(c.intent && d.intent == 15 == k))
      && (c.p2p && !judged ==> s == status)
      && (!c.p2p ==> s == INCOMPATIBLE)
      && (judged && !c.channels ==> s == NO_COMMON_CH)
      && (judged && c.channels && c.intent && d.intent == 15 == k ==> s == BOTH_15)
      && (judged && c.channels && !c.wps && !(c.intent && d.intent == 15 == k) ==> s == INCOMPATIBLE)
      && n.intent == d.intent && (n.armed <==> n.state == Fail)
      && n.pre == (if judged && c.intent && !(d.intent == 15 == k) then Ok else d.pre)
      && (if judged && c.intent then n.peerIntent == 2 * k + t && Judged(n.role, d.intent, k, t)
          else n.peerIntent == d.peerIntent && n.role == if judged then d.role else DEVICE)
  {
  }

  /** After a confirmation: accepted, the device takes the role the request called for. */
  lemma ConfMeans(d: Device, status: Status, k: nat, t: nat)
    requires t < 2 && d.peerIntent == 2 * k + t
    ensures var n := GotConf(d, status);
      && n.intent == d.intent && n.peerIntent == d.peerIntent
      && (status == SUCCESS ==> n.state == Ok && n.pre == Ok && !n.armed
                                && n.role == if d.intent > k || (d.intent == k && t == 0) then GO else CLIENT)
      && (status != SUCCESS ==> n.state == Fail && n.pre == d.pre && n.armed == d.armed && n.role == DEVICE)
  {
  }

  /** When the timer runs out: the state before, and the role only of a negotiation that is over. */
  lemma RestoreMeans(d: Device)
    ensures var n := Restored(d);
      && n.state == d.pre == n.pre && !n.armed && n.intent == d.intent && n.peerIntent == d.peerIntent
      && n.role == match d.state case Ing => DEVICE case Fail => DEVICE case _ => d.role
  {
  }

  /** The response carries the device's own intent and the opposite tie breaker. */
  lemma TieBreakersOppose(d: Device, k: nat, t: nat)
    requires t < 2 && d.peerIntent == 2 * k + t
    ensures RespByte(d) / 2 == d.intent && RespByte(d) % 2 == 1 - t
  {
  }

  // ---- the code ---------------------------------------------------------------------------

  class WifiDirect {
    var state: State
    var pre: State
    var role: Role
    var intent: nat
    var peerIntent: nat
    var armed: bool

    function Value(): Device
      reads this
    {
      Device(state, pre, role, intent, peerIntent, armed)
    }

    /** The P2P_GO_NEGO_REQ case of the dispatcher. */
    method OnReq(peer: nat, c: Content) returns (result: Status)
      modifies this
      ensures if old(state) == Off then Value() == old(Value())
              else (Value(), result) == GotReq(old(Value()), peer, c)
    {
      result := SUCCESS;
      if state == Off { return; }
      if state == RxProvDiscReq { state := pre; }
      if state == Fail {
        armed := false;
        state := pre;
      }
      if state != Ing { pre := state; }
      result := ProcessReq(peer, c);
      armed := true;
    }

    /** process_p2p_group_negotation_req */
    method ProcessReq(peer: nat, c: Content) returns (result: Status)
      modifies this
      ensures pre == old(pre) && intent == old(intent) && armed == old(armed)
      ensures !c.wps || (c.ready && !c.p2p) ==> result == INCOMPATIBLE && state == Fail
      ensures c.wps && !c.ready ==> result == INFO_UNAVAILABLE && state == TxNotReady
      ensures !(c.wps && c.ready && c.p2p && c.intent) ==> role == old(role) && peerIntent == old(peerIntent)
      ensures c.wps && c.ready && c.p2p ==>
        && (c.intent ==> peerIntent == peer && role == RoleFor(intent, peer))
        && state == (if c.channels then Ing else Fail)
        && result == if !c.channels then NO_COMMON_CH
                     else if c.intent && Both15(intent, peer) then BOTH_15 else SUCCESS
    {
      result := SUCCESS;
      if !c.wps {
        state := Fail;
        return INCOMPATIBLE;
      }
      if !c.ready {
        state := TxNotReady;
        return INFO_UNAVAILABLE;
      }
      if !c.p2p {
        state := Fail;
        return INCOMPATIBLE;
      }
      state := Ing;
      if c.intent {
        peerIntent := peer;
        if intent == peerIntent / 2 {
          if intent == MAX_INTENT {
            role := DEVICE;
            result := BOTH_15;
          } else if peer % 2 == 1 {
            role := CLIENT;
          } else {
            role := GO;
          }
        } else if intent > peerIntent / 2 {
          role := GO;
        } else {
          role := CLIENT;
        }
      }
      if !c.channels {
        result := NO_COMMON_CH;
        state := Fail;
      }
    }

    /** The P2P_GO_NEGO_RESP case with process_p2p_group_negotation_resp; `skipped` when no
        negotiation is going on. */
    method OnResp(status: Status, peer: nat, c: Content) returns (skipped: bool, result: Status)
      modifies this
      ensures skipped == (old(state) != Ing)
      ensures skipped ==> Value() == old(Value())
      ensures !skipped ==> (Value(), result) == GotResp(old(Value()), status, peer, c)
    {
      skipped, result := true, SUCCESS;
      if state != Ing { return; }
      skipped, armed := false, false;
      if !c.wps {
        result := INCOMPATIBLE;
        state := Fail;
      }
      if !c.p2p {
        role := DEVICE;
        state := Fail;
        result := INCOMPATIBLE;
      } else if status != SUCCESS {
        state := if status == INFO_UNAVAILABLE then RxNotReady else Fail;
        role := DEVICE;
        result := status;
      } else {
        if c.intent {
          peerIntent := peer;
          if intent == peerIntent / 2 {
            if intent == MAX_INTENT {
              role := DEVICE;
              result := BOTH_15;
              state := Fail;
            } else {
              state, pre := Ok, Ok;
              role := if peer % 2 == 1 then CLIENT else GO;
            }
          } else {
            state, pre := Ok, Ok;
            role := if intent > peerIntent / 2 then GO else CLIENT;
          }
        }
        if !c.channels {
          result := NO_COMMON_CH;
          state := Fail;
        }
      }
      if state == Fail { armed := true; }
    }

    /** process_p2p_group_negotation_confirm */
    method OnConf(status: Status)
      modifies this
      ensures Value() == if old(state) == Off then old(Value()) else GotConf(old(Value()), status)
    {
      if state == Off { return; }
      if status == SUCCESS {
        armed := false;
        state, pre := Ok, Ok;
        if intent > peerIntent / 2 {
          role := GO;
        } else if intent < peerIntent / 2 {
          role := CLIENT;
        } else if peerIntent % 2 == 1 {
          role := CLIENT;
        } else {
          role := GO;
        }
      } else {
        role := DEVICE;
        state := Fail;
      }
    }

    /** restore_p2p_state_handler */
    method Restore()
      modifies this
      ensures Value() == Restored(old(Value()))
    {
      armed := false;
      if state == Ing || state == Fail { role := DEVICE; }
      state := pre;
    }
  }

  // ---- two devices ------------------------------------------------------------------------

  /** One dialogue. Frames sent stay in the air: they may arrive never, once or again and again. */
  datatype World = World(r: Device, p: Device, resps: set<(Status, nat)>, conf: Option<Status>)

  datatype Event =
    | ReqArrives(c: Content)
    | RespArrives(status: Status, peer: nat, c: Content)
    | ConfArrives
    | RequesterRestores
    | ResponderRestores

  function ReqByte(r: Device): nat {
    2 * r.intent + 1
  }

  /** The driver's own requests and responses always carry an intent. */
  predicate Enabled(w: World, e: Event) {
    match e
    case ReqArrives(c) => w.p.state != Off && c.intent
    case RespArrives(status, peer, c) => (status, peer) in w.resps && w.r.state == Ing && c.intent
    case ConfArrives => w.conf.Some? && w.p.state != Off
    case RequesterRestores => w.r.armed
    case ResponderRestores => w.p.armed
  }

  function Next(w: World, e: Event): World
    requires Enabled(w, e)
  {
    match e
    case ReqArrives(c) =>
      var (p, status) := GotReq(w.p, ReqByte(w.r), c);
      w.(p := p, resps := w.resps + {(status, RespByte(p))})
    case RespArrives(status, peer, c) =>
      var (r, s) := GotResp(w.r, status, peer, c);
      w.(r := r, conf := Some(s))
    case ConfArrives => w.(p := GotConf(w.p, w.conf.value))
    case RequesterRestores => w.(r := Restored(w.r))
    case ResponderRestores => w.(p := Restored(w.p))
  }

  /** The requester has just sent its request; neither side has finished a negotiation. */
  predicate Start(w: World) {
    && w.r.state == Ing && w.r.pre != Ok && w.p.state != Ok && w.p.pre != Ok
    && w.r.pre != Ing && w.resps == {} && w.conf == None
  }

  function Front(es: seq<Event>): seq<Event>
    requires es != []
  {
    es[..|es| - 1]
  }

  function Last(es: seq<Event>): Event
    requires es != []
  {
    es[|es| - 1]
  }

  /** The events can happen in this order. */
  predicate Possible(w: World, es: seq<Event>)
    decreases |es|, 0
  {
    es == [] || (Possible(w, Front(es)) && Enabled(After(w, Front(es)), Last(es)))
  }

  function After(w: World, es: seq<Event>): World
    requires Possible(w, es)
    decreases |es|, 1
  {
    if es == [] then w else Next(After(w, Front(es)), Last(es))
  }

  /** The restore timer of the responder runs out in the middle of a repeated request that came
      after the confirmation. */
  predicate LateRestore(p: Device) {
    p.pre == Ok && (p.state == Ing || p.state == Fail)
  }

  /** The responder's role is decided anew: by a confirmation, or by a request it evaluates. */
  predicate Decides(e: Event) {
    e.ConfArrives? || (e.ReqArrives? && e.c.wps && e.c.ready && e.c.p2p)
  }

  /** A late restore among the events, and nothing after it that decides the role anew. */
  ghost predicate LateSince(w: World, es: seq<Event>) {
    exists i :: 0 <= i < |es| && LateAt(w, es, i) && forall j :: i < j < |es| ==> !Decides(es[j])
  }

  predicate LateAt(w: World, es: seq<Event>, i: nat)
    requires i < |es|
  {
    es[i] == ResponderRestores && Possible(w, es[..i]) && LateRestore(After(w, es[..i]).p)
  }

  /** LateSince, event by event. */
  predicate LateNow(w: World, e: Event, late: bool) {
    if e == ResponderRestores then LateRestore(w.p) || late else late && !Decides(e)
  }

  lemma LateSinceStep(w: World, es: seq<Event>, f: seq<Event>, e: Event)
    requires es == f + [e] && Possible(w, f)
    ensures LateSince(w, es) <==> LateNow(After(w, f), e, LateSince(w, f))
  {
    var n := |f|;
    assert es[..n] == f && es[n] == e;
    if LateSince(w, es) {
      var i :| 0 <= i < |es| && LateAt(w, es, i) && forall j :: i < j < |es| ==> !Decides(es[j]);
      if i < n { LateBefore(w, es, f, i); }
    }
    if LateSince(w, f) && !Decides(e) {
      var i :| 0 <= i < n && LateAt(w, f, i) && forall j :: i < j < n ==> !Decides(f[j]);
      LateBefore(w, es, f, i);
    }
    LateAtEnd(w, es, f, n);
  }

  lemma LateBefore(w: World, es: seq<Event>, f: seq<Event>, i: nat)
    requires i < |f| < |es| && es[..|f|] == f
    ensures LateAt(w, f, i) <==> LateAt(w, es, i)
    ensures (forall j :: i < j < |f| ==> !Decides(f[j])) <==> (forall j :: i < j < |f| ==> !Decides(es[j]))
  {
    assert f[..i] == es[..i] && forall j :: 0 <= j < |f| ==> f[j] == es[j];
  }

  lemma LateAtEnd(w: World, es: seq<Event>, f: seq<Event>, n: nat)
    requires n == |f| < |es| && es[..n] == f && Possible(w, f)
    ensures LateAt(w, es, n) <==> es[n] == ResponderRestores && LateRestore(After(w, f).p)
  {
  }

  // ---- agreement --------------------------------------------------------------------------

  predicate Wins(w: World) {
    RequesterWins(ReqByte(w.r), 2 * w.p.intent)
  }

  predicate Both15s(w: World) {
    w.r.intent == MAX_INTENT && w.p.intent == MAX_INTENT
  }

  function RequesterRole(w: World): Role {
    if Wins(w) then GO else CLIENT
  }

  function ResponderRole(w: World): Role {
    if Wins(w) then CLIENT else GO
  }

  /** `late`: the responder's role was last reset by a late restore. */
  predicate Inv(w: World, late: bool) {
    && (forall f :: f in w.resps && f.0 == SUCCESS ==>
          f.1 == 2 * w.p.intent && w.p.peerIntent == ReqByte(w.r) && !Both15s(w))
    && (w.r.state == Ing ==> w.conf == None)
    && w.r.pre != Ing
    && (w.conf == Some(SUCCESS) ==>
          && w.r.state == Ok && w.r.role == RequesterRole(w) && !w.r.armed
          && w.p.peerIntent == ReqByte(w.r) && !Both15s(w))
    && (w.p.state == Ok || w.p.pre == Ok ==>
          w.conf == Some(SUCCESS) && w.p.role == if late then DEVICE else ResponderRole(w))
    && (Both15s(w) ==> w.r.state != Ok && w.r.pre != Ok)
  }

  lemma RolesMatch(w: World)
    requires !Both15s(w)
    ensures RoleAgainst(w.r.intent, 2 * w.p.intent) == RequesterRole(w)
    ensures RoleAgainst(w.p.intent, ReqByte(w.r)) == ResponderRole(w)
    ensures !Both15(w.p.intent, ReqByte(w.r)) && !Both15(w.r.intent, 2 * w.p.intent)
  {
  }

  lemma ReqKeeps(w: World, c: Content, late: bool)
    requires Inv(w, late) && Enabled(w, ReqArrives(c))
    ensures Inv(Next(w, ReqArrives(c)), LateNow(w, ReqArrives(c), late))
  {
    if !Both15s(w) { RolesMatch(w); }
  }

  lemma RespKeeps(w: World, status: Status, peer: nat, c: Content, late: bool)
    requires Inv(w, late) && Enabled(w, RespArrives(status, peer, c))
    ensures Inv(Next(w, RespArrives(status, peer, c)), late)
  {
    if !Both15s(w) { RolesMatch(w); }
    if status == SUCCESS { assert (status, peer).0 == SUCCESS; }
  }

  lemma ConfKeeps(w: World, late: bool)
    requires Inv(w, late) && Enabled(w, ConfArrives)
    ensures Inv(Next(w, ConfArrives), false)
  {
    if !Both15s(w) { RolesMatch(w); }
  }

  lemma RestoreKeeps(w: World, e: Event, late: bool)
    requires Inv(w, late) && Enabled(w, e) && (e.RequesterRestores? || e.ResponderRestores?)
    ensures Inv(Next(w, e), LateNow(w, e, late))
  {
  }

  lemma {:induction false} RunKeeps(w: World, es: seq<Event>)
    requires Start(w) && Possible(w, es)
    ensures var v := After(w, es);
      Inv(v, LateSince(w, es)) && v.r.intent == w.r.intent && v.p.intent == w.p.intent
    decreases |es|
  {
    if es != [] {
      var u, e, late := After(w, Front(es)), Last(es), LateSince(w, Front(es));
      RunKeeps(w, Front(es));
      LateSinceStep(w, es, Front(es), e);
      match e
      case ReqArrives(c) => ReqKeeps(u, c, late);
      case RespArrives(status, peer, c) => RespKeeps(u, status, peer, c, late);
      case ConfArrives => ConfKeeps(u, late);
      case RequesterRestores => RestoreKeeps(u, e, late);
      case ResponderRestores => RestoreKeeps(u, e, late);
    }
  }

  /** Exactly one side is GO, the one the comparison of the intents names. */
  predicate Agree(w: World) {
    (w.r.role == GO <==> Wins(w)) && (w.p.role == GO <==> !Wins(w))
  }

  /** Over every run: when both sides have finished, they agree if and only if no late restore has
      undone the responder's role for good, or the requester is to be GO anyway. Two intents of
      15 never get there. */
  lemma Agreement(w: World, es: seq<Event>)
    requires Start(w) && Possible(w, es) && After(w, es).r.state == Ok && After(w, es).p.state == Ok
    ensures !Both15s(w)
    ensures Agree(After(w, es)) <==> !LateSince(w, es) || Wins(w)
  {
    RunKeeps(w, es);
  }

  /** It does happen: request, response, confirmation, the request again, the timer. The
      responder, whose intent is higher, ends as a mere device, and so neither side is GO. */
  lemma LateRestoreDisagrees(w: World)
    requires Start(w) && w.r.intent < w.p.intent && w.p.state.Other?
    ensures Possible(w, LateRun(w))
    ensures var v := After(w, LateRun(w));
      v.r.state == Ok && v.p.state == Ok && v.r.role == CLIENT && v.p.role == DEVICE
  {
    var w1, w2, w3 := FirstThree(w);
    var w4 := TooLate(w3);
    var e2 := RespArrives(SUCCESS, 2 * w.p.intent, FINE);
    var es1 := [ReqArrives(FINE)];
    var es2 := es1 + [e2];
    var es3 := es2 + [ConfArrives];
    var es4 := es3 + [ReqArrives(FINE)];
    Extended(w, [], w, ReqArrives(FINE), es1);
    Extended(w, es1, w1, e2, es2);
    Extended(w, es2, w2, ConfArrives, es3);
    Extended(w, es3, w3, ReqArrives(FINE), es4);
    LateRunIs(w, es4);
    Extended(w, es4, w4, ResponderRestores, LateRun(w));
  }

  lemma LateRunIs(w: World, es4: seq<Event>)
    requires es4 ==
      [ReqArrives(FINE)] + [RespArrives(SUCCESS, 2 * w.p.intent, FINE)] + [ConfArrives] + [ReqArrives(FINE)]
    ensures LateRun(w) == es4 + [ResponderRestores]
  {
  }

  function LateRun(w: World): seq<Event> {
    [ReqArrives(FINE), RespArrives(SUCCESS, 2 * w.p.intent, FINE), ConfArrives, ReqArrives(FINE), ResponderRestores]
  }

  lemma FirstThree(w: World) returns (w1: World, w2: World, w3: World)
    requires Start(w) && w.r.intent < w.p.intent && w.p.state.Other?
    ensures Steps(w, ReqArrives(FINE), w1) && Steps(w1, RespArrives(SUCCESS, 2 * w.p.intent, FINE), w2)
    ensures Steps(w2, ConfArrives, w3) && w3.p.state == Ok && w3.r.state == Ok && w3.r.role == CLIENT
    ensures w3.r.intent < w3.p.intent
  {
    w1 := Next(w, ReqArrives(FINE));
    w2 := Next(w1, RespArrives(SUCCESS, 2 * w.p.intent, FINE));
    w3 := Next(w2, ConfArrives);
  }

  lemma TooLate(w3: World) returns (w4: World)
    requires w3.p.state == Ok && w3.r.state == Ok && w3.r.role == CLIENT && w3.r.intent < w3.p.intent
    ensures Steps(w3, ReqArrives(FINE), w4) && Enabled(w4, ResponderRestores)
    ensures var w5 := Next(w4, ResponderRestores);
      w5.r.state == Ok && w5.p.state == Ok && w5.r.role == CLIENT && w5.p.role == DEVICE
  {
    w4 := Next(w3, ReqArrives(FINE));
  }

  predicate Steps(u: World, e: Event, v: World) {
    Enabled(u, e) && v == Next(u, e)
  }

  lemma Extended(w: World, es: seq<Event>, u: World, e: Event, es': seq<Event>)
    requires Possible(w, es) && u == After(w, es) && Enabled(u, e) && es' == es + [e]
    ensures Possible(w, es') && After(w, es') == Next(u, e)
  {
    assert Front(es') == es && Last(es') == e;
  }

  /** And agreement does come about when nothing is lost or repeated. */
  lemma DirectRunAgrees(w: World)
    requires Start(w) && !Both15s(w) && w.p.state != Off && w.p.state != Ing
    ensures Enabled(w, ReqArrives(FINE))
    ensures var w1 := Next(w, ReqArrives(FINE));
      && Enabled(w1, RespArrives(SUCCESS, 2 * w.p.intent, FINE))
      && var w2 := Next(w1, RespArrives(SUCCESS, 2 * w.p.intent, FINE));
      && Enabled(w2, ConfArrives)
      && var w3 := Next(w2, ConfArrives); w3.r.state == Ok && w3.p.state == Ok && Agree(w3)
  {
    RolesMatch(w);
  }
}
