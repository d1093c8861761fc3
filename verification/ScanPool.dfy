/** The fixed pool of slots for scanned networks (core/rtw_mlme.c): a free list, the scanned
    queue, and eviction of the oldest when no slot is left. */
module ScanPool {
  import opened Wrappers

  const WRAP: nat := 0x1_0000_0000     // of the time stamps
  const HZ: nat := 1000

  type Time = t: nat | t < WRAP

  /** What is_same_network compares, what decides on overwriting (Reserved[0]: the kind of frame
      it was heard in), the signal, and everything else. */
  datatype Key = Key(mac: nat, ssid: seq<nat>, ibss: bool, bss: bool)
  datatype Signal = Signal(strength: nat, quality: nat, rssi: int)
  datatype Bss = Bss(key: Key, frame: nat, signal: Signal, rest: seq<nat>)
  datatype Net = Net(bss: Bss, fixed: bool, seen: Time)

  const PROBE_REQ: nat := 2
  const WRONG_CHANNEL: nat := 101      // SignalQuality of a frame from another channel

  datatype State = State(nets: seq<Net>, free: seq<nat>, scanned: seq<nat>, num: int)

  // ---- conservation ---------------------------------------------------------------------

  function AllSlots(n: nat): multiset<nat> {
    if n == 0 then multiset{} else AllSlots(n - 1) + multiset{n - 1}
  }

  /** Free list and scanned queue share out the slots: each slot is in exactly one of them,
      once. */
  predicate Shared(s: State) {
    |s.nets| > 0 && s.num == |s.scanned| && multiset(s.free) + multiset(s.scanned) == AllSlots(|s.nets|)
  }

  lemma {:induction false} EachSlotOnce(n: nat, x: nat)
    ensures AllSlots(n)[x] == (if x < n then 1 else 0) && |AllSlots(n)| == n
  {
    if n > 0 { EachSlotOnce(n - 1, x); }
  }

  /** What sharing means, list by list. */
  lemma SharedMeans(s: State)
    requires Shared(s)
    ensures |s.free| + |s.scanned| == |s.nets|
    ensures forall i :: 0 <= i < |s.free| ==> s.free[i] < |s.nets| && s.free[i] !in s.scanned
    ensures forall i :: 0 <= i < |s.scanned| ==> s.scanned[i] < |s.nets|
    ensures Distinct(s.scanned) && Distinct(s.free)
  {
    EachSlotOnce(|s.nets|, 0);
    assert |multiset(s.free) + multiset(s.scanned)| == |s.free| + |s.scanned|;
    forall x: nat ensures multiset(s.free)[x] + multiset(s.scanned)[x] == if x < |s.nets| then 1 else 0 {
      EachSlotOnce(|s.nets|, x);
      assert (multiset(s.free) + multiset(s.scanned))[x] == multiset(s.free)[x] + multiset(s.scanned)[x];
    }
    forall i | 0 <= i < |s.free| ensures s.free[i] < |s.nets| && s.free[i] !in s.scanned {
      assert s.free[i] in multiset(s.free);
    }
    forall i | 0 <= i < |s.scanned| ensures s.scanned[i] < |s.nets| {
      assert s.scanned[i] in multiset(s.scanned);
    }
    OnceMeansDistinct(s.scanned);
    OnceMeansDistinct(s.free);
  }

  predicate Distinct(xs: seq<nat>) {
    forall i, j :: 0 <= i < j < |xs| ==> xs[i] != xs[j]
  }

  lemma OnceMeansDistinct(xs: seq<nat>)
    requires forall x: nat :: multiset(xs)[x] <= 1
    ensures Distinct(xs)
  {
    forall i, j | 0 <= i < j < |xs| ensures xs[i] != xs[j] {
      assert xs == xs[..j] + xs[j..];
      assert xs[i] in xs[..j] && xs[j] in xs[j..];
      assert multiset(xs)[xs[i]] == multiset(xs[..j])[xs[i]] + multiset(xs[j..])[xs[i]];
    }
  }

  /** One slot goes from one list to the other. */
  lemma Handed(from: seq<nat>, k: nat, to: seq<nat>)
    requires k < |from|
    ensures multiset(from[..k] + from[k + 1..]) + multiset(to + [from[k]]) == multiset(from) + multiset(to)
  {
    assert from == from[..k] + [from[k]] + from[k + 1..];
  }

  lemma HandedFirst(from: seq<nat>, to: seq<nat>)
    requires from != []
    ensures multiset(from[1..]) + multiset(to + [from[0]]) == multiset(from) + multiset(to)
  {
    assert from[..0] + from[1..] == from[1..];
    Handed(from, 0, to);
  }

  // ---- which network is it ----------------------------------------------------------------

  /** is_same_network; feature 1 means that P2P is in use. */
  predicate Same(a: Bss, b: Bss, feature: nat) {
    SameKey(a.key, b.key, feature)
  }

  predicate SameKey(a: Key, b: Key, feature: nat) {
    (feature == 1 && a.mac == b.mac) || a == b
  }

  /** time_after(a, b) on the wrapping clock. */
  predicate Later(a: Time, b: Time) {
    (a - b) % WRAP != 0 && (b - a) % WRAP >= WRAP / 2
  }

  predicate InRange(s: State) {
    forall i :: 0 <= i < |s.scanned| ==> s.scanned[i] < |s.nets|
  }

  /** Position in the queue of the first entry that is the same network. */
  function MatchFrom(s: State, target: Bss, feature: nat, k: nat): (r: nat)
    requires InRange(s) && k <= |s.scanned|
    ensures k <= r <= |s.scanned|
    ensures r < |s.scanned| ==> Same(s.nets[s.scanned[r]].bss, target, feature)
    ensures forall i :: k <= i < r ==> !Same(s.nets[s.scanned[i]].bss, target, feature)
    decreases |s.scanned| - k
  {
    if k == |s.scanned| || Same(s.nets[s.scanned[k]].bss, target, feature) then k
    else MatchFrom(s, target, feature, k + 1)
  }

  /** Position of the entry the search ends up with as the oldest of the first k > 0. */
  function OldestOf(s: State, k: nat): (r: nat)
    requires InRange(s) && 0 < k <= |s.scanned|
    ensures r < k
  {
    if k == 1 then 0
    else
      var r := OldestOf(s, k - 1);
      if Later(s.nets[s.scanned[r]].seen, s.nets[s.scanned[k - 1]].seen) then k - 1 else r
  }

  /** As long as all time stamps lie within half the range of the clock, this is one seen
      longest ago. */
  lemma {:induction false} OldestIsOldest(s: State, k: nat, base: Time)
    requires InRange(s) && 0 < k <= |s.scanned|
    requires forall i :: 0 <= i < k ==> (s.nets[s.scanned[i]].seen - base) % WRAP < WRAP / 2
    ensures forall i :: 0 <= i < k ==>
      (s.nets[s.scanned[OldestOf(s, k)]].seen - base) % WRAP <= (s.nets[s.scanned[i]].seen - base) % WRAP
  {
    if k > 1 {
      OldestIsOldest(s, k - 1, base);
      LaterMeans(s.nets[s.scanned[OldestOf(s, k - 1)]].seen, s.nets[s.scanned[k - 1]].seen, base);
    }
  }

  lemma LaterMeans(a: Time, b: Time, base: Time)
    requires (a - base) % WRAP < WRAP / 2 && (b - base) % WRAP < WRAP / 2
    ensures Later(a, b) <==> (a - base) % WRAP > (b - base) % WRAP
  {
    var x := Since(a, base);
    var y := Since(b, base);
    var d := Since(a, b);
    var e := Since(b, a);
  }

  lemma Since(a: Time, b: Time) returns (d: nat)
    ensures d == (a - b) % WRAP && d == if a >= b then a - b else a - b + WRAP
  {
    d := if a >= b then a - b else a - b + WRAP;
  }

  // ---- the operations ---------------------------------------------------------------------

  /** A slot filled with a newly found network. */
  function Fresh(target: Bss, now: Time): Net {
    Net(if target.signal.quality == WRONG_CHANNEL then target.(signal := target.signal.(quality := 0)) else target,
        false, now)
  }

  /** The division of C. */
  function Quotient(a: int, b: int): int
    requires b > 0
  {
    if a >= 0 then a / b else -((-a) / b)
  }

  /** update_network: new samples count one fifth. `linked` is the receiver's own measurement when
      this is the network we are connected to. */
  function Smoothed(was: Signal, sample: Signal, linked: Option<Signal>): Signal {
    var rssi := if sample.quality != WRONG_CHANNEL then Quotient(sample.rssi + was.rssi * 4, 5) else was.rssi;
    match linked
    case Some(r) => Signal(r.strength, r.quality, rssi)
    case None =>
      if sample.quality != WRONG_CHANNEL
      then Signal((sample.strength + was.strength * 4) / 5, (sample.quality + was.quality * 4) / 5, rssi)
      else was
  }

  /** The stored elements are replaced unless the frame is a probe request or of a lesser kind
      than the stored one. */
  predicate Replaces(target: Bss, stored: Bss) {
    target.frame != PROBE_REQ && target.frame >= stored.frame
  }

  function Refreshed(net: Net, target: Bss, now: Time, linked: Option<Signal>): Net {
    var signal := Smoothed(net.bss.signal, target.signal, linked);
    Net((if Replaces(target, net.bss) then target else net.bss).(signal := signal), net.fixed, now)
  }

  /** rtw_update_scanned_network */
  function Updated(s: State, target: Bss, feature: nat, now: Time, linked: Option<Signal>): State
    requires Shared(s)
  {
    SharedMeans(s);
    var m := MatchFrom(s, target, feature, 0);
    if m < |s.scanned| then
      var x := s.scanned[m];
      s.(nets := s.nets[x := Refreshed(s.nets[x], target, now, linked)])
    else if s.free == [] then
      s.(nets := s.nets[s.scanned[OldestOf(s, |s.scanned|)] := Fresh(target, now)])
    else
      State(s.nets[s.free[0] := Fresh(target, now)], s.free[1..], s.scanned + [s.free[0]], s.num + 1)
  }

  /** rtw_get_oldest_wlan_network passes over fixed entries. */
  function OldestLoose(s: State, k: nat): (r: Option<nat>)
    requires InRange(s) && k <= |s.scanned|
    ensures r.Some? ==> r.value < k && !s.nets[s.scanned[r.value]].fixed
    ensures r.None? ==> forall i :: 0 <= i < k ==> s.nets[s.scanned[i]].fixed
  {
    if k == 0 then None
    else
      var r, x := OldestLoose(s, k - 1), s.nets[s.scanned[k - 1]];
      if !x.fixed && (r.None? || Later(s.nets[s.scanned[r.value]].seen, x.seen)) then Some(k - 1) else r
  }

  /** The slot taken for a network we create ourselves (rtw_createbss_cmd_callback), without a
      look at what is listed. None: every entry is fixed. */
  function Created(s: State, own: Bss, now: Time): Option<State>
    requires Shared(s)
  {
    SharedMeans(s);
    if s.free != [] then
      Some(State(s.nets[s.free[0] := Net(own, false, now)], s.free[1..], s.scanned + [s.free[0]], s.num + 1))
    else
      match OldestLoose(s, |s.scanned|)
      case None => None
      case Some(r) => Some(s.(nets := s.nets[s.scanned[r] := Net(own, false, now)]))
  }

  /** _rtw_free_network's conditions. */
  predicate Goes(net: Net, all: bool, now: Time, lifetime: nat) {
    !net.fixed && (all || (now - net.seen) % WRAP / HZ >= lifetime)
  }

  /** The scanned slots that stay, and those that go, in order. */
  function Staying(s: State, k: nat, all: bool, now: Time, lifetime: nat): seq<nat>
    requires InRange(s) && k <= |s.scanned|
  {
    if k == 0 then []
    else if Goes(s.nets[s.scanned[k - 1]], all, now, lifetime) then Staying(s, k - 1, all, now, lifetime)
    else Staying(s, k - 1, all, now, lifetime) + [s.scanned[k - 1]]
  }

  function Going(s: State, k: nat, all: bool, now: Time, lifetime: nat): seq<nat>
    requires InRange(s) && k <= |s.scanned|
  {
    if k == 0 then []
    else if Goes(s.nets[s.scanned[k - 1]], all, now, lifetime)
    then Going(s, k - 1, all, now, lifetime) + [s.scanned[k - 1]]
    else Going(s, k - 1, all, now, lifetime)
  }

  /** _rtw_free_network_queue */
  function Purged(s: State, all: bool, now: Time, lifetime: nat): State
    requires InRange(s)
  {
    var n := |s.scanned|;
    var gone := Going(s, n, all, now, lifetime);
    State(s.nets, s.free + gone, Staying(s, n, all, now, lifetime), s.num - |gone|)
  }

  /** free_scanqueue: fixed entries go too. */
  function Emptied(s: State): State {
    State(s.nets, s.free + s.scanned, [], s.num - |s.scanned|)
  }

  // ---- what they keep ---------------------------------------------------------------------

  /** No two queued entries are the same network. */
  predicate Unique(s: State) {
    InRange(s) && forall i, j :: 0 <= i < j < |s.scanned| ==>
      s.nets[s.scanned[i]].bss.key != s.nets[s.scanned[j]].bss.key
  }

  lemma UpdatedStaysShared(s: State, target: Bss, feature: nat, now: Time, linked: Option<Signal>)
    requires Shared(s)
    ensures var t := Updated(s, target, feature, now, linked); Shared(t) && |t.nets| == |s.nets|
  {
    SharedMeans(s);
    if s.free != [] { HandedFirst(s.free, s.scanned); }
  }

  /** The frame overwrites an entry that only has its MAC address, while another entry already
      is its network. */
  predicate Doubles(s: State, target: Bss, feature: nat)
    requires InRange(s)
  {
    var m := MatchFrom(s, target, feature, 0);
    m < |s.scanned| && Replaces(target, s.nets[s.scanned[m]].bss) &&
    exists i :: 0 <= i < |s.scanned| && i != m && s.nets[s.scanned[i]].bss.key == target.key
  }

  /** A list without repetitions stays so exactly when the frame does not double an entry ... */
  lemma UniqueUnlessDoubled(s: State, target: Bss, feature: nat, now: Time, linked: Option<Signal>)
    requires Shared(s) && Unique(s)
    ensures Unique(Updated(s, target, feature, now, linked)) <==> !Doubles(s, target, feature)
  {
    var t, m := Updated(s, target, feature, now, linked), MatchFrom(s, target, feature, 0);
    NewKeys(s, target, feature, now, linked, t);
    if Doubles(s, target, feature) {
      var i :| 0 <= i < |s.scanned| && i != m && s.nets[s.scanned[i]].bss.key == target.key;
      assert t.nets[t.scanned[i]].bss.key == t.nets[t.scanned[m]].bss.key;
      assert !Unique(t);
    } else {
      forall i, j | 0 <= i < j < |t.scanned| ensures t.nets[t.scanned[i]].bss.key != t.nets[t.scanned[j]].bss.key {
        assert NewKey(s, target, feature, i) != NewKey(s, target, feature, j);
      }
    }
  }

  lemma NewKeys(s: State, target: Bss, feature: nat, now: Time, linked: Option<Signal>, t: State)
    requires Shared(s) && t == Updated(s, target, feature, now, linked)
    ensures InRange(s) && InRange(t) && s.scanned <= t.scanned && |t.scanned| <= |s.scanned| + 1
    ensures (s.free == [] ==> s.scanned != []) && (|t.scanned| > |s.scanned| ==> s.free != [])
    ensures forall i :: 0 <= i < |t.scanned| ==> t.nets[t.scanned[i]].bss.key == NewKey(s, target, feature, i)
  {
    SharedMeans(s);
    UpdatedStaysShared(s, target, feature, now, linked);
    SharedMeans(t);
    forall i | 0 <= i < |t.scanned| ensures t.nets[t.scanned[i]].bss.key == NewKey(s, target, feature, i) {
      NewKeyAt(s, target, feature, now, linked, t, i);
    }
  }

  lemma NewKeyAt(s: State, target: Bss, feature: nat, now: Time, linked: Option<Signal>, t: State, i: nat)
    requires Shared(s) && t == Updated(s, target, feature, now, linked)
    requires InRange(s) && Distinct(s.scanned) && InRange(t) && i < |t.scanned| <= |s.scanned| + 1
    requires (s.free == [] ==> s.scanned != []) && (|t.scanned| > |s.scanned| ==> s.free != [])
    requires forall j :: 0 <= j < |s.free| ==> s.free[j] < |s.nets| && s.free[j] !in s.scanned
    ensures t.nets[t.scanned[i]].bss.key == NewKey(s, target, feature, i)
  {
    var m := MatchFrom(s, target, feature, 0);
    if m < |s.scanned| {
      if i != m { assert s.scanned[i] != s.scanned[m]; }
    } else if s.free == [] {
      var o := OldestOf(s, |s.scanned|);
      assert t.scanned == s.scanned && t.nets == s.nets[s.scanned[o] := Fresh(target, now)];
      if i != o { assert s.scanned[i] != s.scanned[o]; }
    } else if i < |s.scanned| {
      assert s.free[0] !in s.scanned && s.scanned[i] in s.scanned;
    }
  }

  /** The key at position i of the queue after an update. */
  function NewKey(s: State, target: Bss, feature: nat, i: nat): Key
    requires InRange(s) && |s.nets| > 0 && i <= |s.scanned| && (i == |s.scanned| ==> s.free != [])
    requires s.free == [] ==> s.scanned != []
  {
    var m := MatchFrom(s, target, feature, 0);
    if i == |s.scanned| then target.key
    else if m < |s.scanned| then
      if i == m && Replaces(target, s.nets[s.scanned[m]].bss) then target.key else s.nets[s.scanned[i]].bss.key
    else if s.free == [] && i == OldestOf(s, |s.scanned|) then target.key
    else s.nets[s.scanned[i]].bss.key
  }

  /** No two queued entries are the same network as is_same_network sees it with this feature. */
  predicate UniqueFor(s: State, feature: nat) {
    InRange(s) && forall i, j :: 0 <= i < j < |s.scanned| ==>
      !Same(s.nets[s.scanned[i]].bss, s.nets[s.scanned[j]].bss, feature)
  }

  /** ... so as long as the feature does not change, no network is ever listed twice ... */
  lemma UpdatedStaysUniqueFor(s: State, target: Bss, feature: nat, now: Time, linked: Option<Signal>)
    requires Shared(s) && UniqueFor(s, feature)
    ensures UniqueFor(Updated(s, target, feature, now, linked), feature)
  {
    var t := Updated(s, target, feature, now, linked);
    NewKeys(s, target, feature, now, linked, t);
    forall i, j | 0 <= i < j < |t.scanned|
      ensures !Same(t.nets[t.scanned[i]].bss, t.nets[t.scanned[j]].bss, feature)
    {
      NewKeysDiffer(s, target, feature, i, j);
    }
  }

  lemma NewKeysDiffer(s: State, target: Bss, feature: nat, i: nat, j: nat)
    requires UniqueFor(s, feature) && |s.nets| > 0 && i < j <= |s.scanned| && (j == |s.scanned| ==> s.free != [])
    requires s.free == [] ==> s.scanned != []
    requires j == |s.scanned| ==> MatchFrom(s, target, feature, 0) == |s.scanned|
    ensures !SameKey(NewKey(s, target, feature, i), NewKey(s, target, feature, j), feature)
  {
    var m := MatchFrom(s, target, feature, 0);
    assert !Same(s.nets[s.scanned[i]].bss, target, feature) || m < |s.scanned|;
    if j < |s.scanned| {
      assert !Same(s.nets[s.scanned[i]].bss, s.nets[s.scanned[j]].bss, feature);
    }
  }

  /** ... but when P2P comes into use it can be: a device known under two names is heard under the
      second. */
  lemma DoubledWhenP2pStarts(s: State, target: Bss)
    requires InRange(s) && |s.scanned| >= 2
    requires var a, b := s.nets[s.scanned[0]].bss, s.nets[s.scanned[1]].bss;
      a.key.mac == target.key.mac && b.key == target.key && Replaces(target, a)
    ensures Doubles(s, target, 1)
  {
    assert MatchFrom(s, target, 1, 0) == 0;
    assert s.nets[s.scanned[1]].bss.key == target.key;
  }

  /** What an entry holds after an update, apart from its signal: everything of the frame's, if it is
      new or the frame is no probe request and of no lesser kind than the stored one; else what was
      stored. */
  predicate Holds(net: Net, was: Option<Net>, target: Bss) {
    match was
    case None =>
      !net.fixed && net.bss.(signal := target.signal) == target
      && net.bss.signal == (if target.signal.quality == 101 then target.signal.(quality := 0) else target.signal)
    case Some(w) =>
      && net.fixed == w.fixed
      && net.bss.(signal := target.signal)
         == (if target.frame == PROBE_REQ || target.frame < w.bss.frame then w.bss
             else target).(signal := target.signal)
  }

  /** The frame's network is listed afterwards; every other slot is as it was, and an entry of
      another network is overwritten only when no slot is free. */
  lemma UpdatedLists(s: State, target: Bss, feature: nat, now: Time, linked: Option<Signal>) returns (i: nat)
    requires Shared(s) && InRange(s)
    ensures var t := Updated(s, target, feature, now, linked);
      && i < |t.scanned| && t.scanned[i] < |t.nets| == |s.nets|
      && Same(t.nets[t.scanned[i]].bss, target, feature) && t.nets[t.scanned[i]].seen == now
      && (forall x :: 0 <= x < |s.nets| && x != t.scanned[i] ==> t.nets[x] == s.nets[x])
      && (i < |s.scanned| ==> s.free == [] || Same(s.nets[s.scanned[i]].bss, target, feature))
      && Holds(t.nets[t.scanned[i]], if i < |s.scanned| && Same(s.nets[s.scanned[i]].bss, target, feature)
                                     then Some(s.nets[s.scanned[i]]) else None, target)
      && (if s.free == [] || exists j :: 0 <= j < |s.scanned| && Same(s.nets[s.scanned[j]].bss, target, feature)
          then t.scanned == s.scanned && t.free == s.free && t.num == s.num
          else t.scanned == s.scanned + [s.free[0]] && t.free == s.free[1..] && t.num == s.num + 1)
  {
    SharedMeans(s);
    var m := MatchFrom(s, target, feature, 0);
    i := if m < |s.scanned| then m else if s.free == [] then OldestOf(s, |s.scanned|) else |s.scanned|;
  }

  /** The entry overwritten by a new network is one seen longest ago, while all time stamps lie
      within half the range of the clock. */
  lemma EvictsOldest(s: State, target: Bss, feature: nat, now: Time, linked: Option<Signal>, base: Time)
    returns (o: nat)
    requires Shared(s) && InRange(s) && s.free == []
    requires forall i :: 0 <= i < |s.scanned| ==>
      !Same(s.nets[s.scanned[i]].bss, target, feature) && (s.nets[s.scanned[i]].seen - base) % WRAP < WRAP / 2
    ensures o < |s.scanned|
    ensures Updated(s, target, feature, now, linked).nets == s.nets[s.scanned[o] := Fresh(target, now)]
    ensures forall i :: 0 <= i < |s.scanned| ==>
      (s.nets[s.scanned[o]].seen - base) % WRAP <= (s.nets[s.scanned[i]].seen - base) % WRAP
  {
    SharedMeans(s);
    o := OldestOf(s, |s.scanned|);
    OldestIsOldest(s, |s.scanned|, base);
  }

  predicate Between(a: int, x: int, b: int) {
    a <= x <= b || b <= x <= a
  }

  /** The samples are averaged, except that the network we are connected to takes strength and
      quality from the receiver's own measurement; a sample from another channel does not count. */
  lemma SmoothedBetween(was: Signal, now: Signal, linked: Option<Signal>)
    ensures var s := Smoothed(was, now, linked);
      && Between(was.rssi, s.rssi, now.rssi) && (now.quality == WRONG_CHANNEL ==> s.rssi == was.rssi)
      && match linked
         case Some(r) => s.strength == r.strength && s.quality == r.quality
         case None =>
           && Between(was.strength, s.strength, now.strength)
           && (if now.quality == WRONG_CHANNEL then s == was else Between(was.quality, s.quality, now.quality))
  {
  }

  /** x is the fifth part of four times the old value and once the sample, cut towards zero. */
  predicate Weighted(was: int, x: int, sample: int) {
    var n := 4 * was + sample;
    if n >= 0 then x >= 0 && 5 * x <= n < 5 * x + 5 else x <= 0 && 5 * x - 5 < n <= 5 * x
  }

  /** Samples count one fifth, the history four. */
  lemma SmoothedWeights(was: Signal, now: Signal, linked: Option<Signal>)
    requires now.quality != WRONG_CHANNEL
    ensures var s := Smoothed(was, now, linked);
      && Weighted(was.rssi, s.rssi, now.rssi)
      && (linked == None ==>
            Weighted(was.strength, s.strength, now.strength) && Weighted(was.quality, s.quality, now.quality))
  {
  }

  lemma {:induction false} SplitUp(s: State, k: nat, all: bool, now: Time, lifetime: nat, done: seq<nat>)
    requires InRange(s) && k <= |s.scanned| && done == s.scanned[..k]
    ensures multiset(Staying(s, k, all, now, lifetime)) + multiset(Going(s, k, all, now, lifetime)) == multiset(done)
  {
    if k > 0 {
      var j, x, c := k - 1, s.scanned[k - 1], s.scanned[..k - 1];
      SplitUp(s, j, all, now, lifetime, c);
      OneMore(Staying(s, j, all, now, lifetime), Going(s, j, all, now, lifetime), c, x);
      assert done == c + [x];
    }
  }

  lemma {:induction false} SplitCount(s: State, k: nat, all: bool, now: Time, lifetime: nat)
    requires InRange(s) && k <= |s.scanned|
    ensures |Staying(s, k, all, now, lifetime)| + |Going(s, k, all, now, lifetime)| == k
  {
    if k > 0 { SplitCount(s, k - 1, all, now, lifetime); }
  }

  lemma OneMore(a: seq<nat>, b: seq<nat>, c: seq<nat>, x: nat)
    requires multiset(a) + multiset(b) == multiset(c)
    ensures multiset(a + [x]) + multiset(b) == multiset(c + [x]) == multiset(a) + multiset(b + [x])
  {
  }

  lemma PurgedStaysShared(s: State, all: bool, now: Time, lifetime: nat)
    requires Shared(s)
    ensures InRange(s) && Shared(Purged(s, all, now, lifetime))
  {
    SharedMeans(s);
    var n := |s.scanned|;
    SplitUp(s, n, all, now, lifetime, s.scanned);
    SplitCount(s, n, all, now, lifetime);
  }

  /** Exactly the entries to go are gone; those that stay keep their order. */
  lemma {:induction false} StayingHolds(s: State, k: nat, all: bool, now: Time, lifetime: nat, i: nat)
    requires InRange(s) && k <= |s.scanned| && i < |Staying(s, k, all, now, lifetime)|
    ensures exists a :: 0 <= a < k && s.scanned[a] == Staying(s, k, all, now, lifetime)[i]
                        && !Goes(s.nets[s.scanned[a]], all, now, lifetime)
    ensures i > 0 ==> exists a, b :: 0 <= a < b < k && s.scanned[a] == Staying(s, k, all, now, lifetime)[i - 1]
                                     && s.scanned[b] == Staying(s, k, all, now, lifetime)[i]
  {
    if i < |Staying(s, k - 1, all, now, lifetime)| {
      StayingHolds(s, k - 1, all, now, lifetime, i);
    } else if i > 0 {
      StayingHolds(s, k - 1, all, now, lifetime, i - 1);
    }
  }

  /** A fixed entry stays, and a young one unless everything is freed. */
  predicate Stays(net: Net, all: bool, now: Time, lifetime: nat) {
    net.fixed || (!all && (now - net.seen) % WRAP < lifetime * HZ)
  }

  lemma GoesUnlessStays(net: Net, all: bool, now: Time, lifetime: nat)
    ensures Goes(net, all, now, lifetime) <==> !Stays(net, all, now, lifetime)
  {
    var d := (now - net.seen) % WRAP;
    assert d / HZ >= lifetime <==> d >= lifetime * HZ;
  }

  /** Which entries of the queue stay (or go, for stay == false). */
  function Marks(s: State, stay: bool, all: bool, now: Time, lifetime: nat): (m: seq<bool>)
    requires InRange(s)
    ensures |m| == |s.scanned|
    ensures forall j :: 0 <= j < |m| ==> m[j] == (Stays(s.nets[s.scanned[j]], all, now, lifetime) == stay)
  {
    seq(|s.scanned|, j requires 0 <= j < |s.scanned| => Stays(s.nets[s.scanned[j]], all, now, lifetime) == stay)
  }

  /** xs are, in order, what stands in q at the positions `at`: all those below k that are marked. */
  ghost predicate Picks(q: seq<nat>, m: seq<bool>, k: nat, xs: seq<nat>, at: seq<nat>)
    requires k <= |q| == |m|
  {
    && |at| == |xs|
    && (forall i, j :: 0 <= i < j < |at| ==> at[i] < at[j])
    && (forall i :: 0 <= i < |at| ==> at[i] < k && xs[i] == q[at[i]])
    && (forall j: nat :: j in at <==> j < k && m[j])
  }

  /** A purge keeps exactly the entries that stay, in order; the others are, in order, at the end of
      the free list. */
  lemma PurgedMeans(s: State, all: bool, now: Time, lifetime: nat) returns (kept: seq<nat>, gone: seq<nat>)
    requires InRange(s)
    ensures var t, n := Purged(s, all, now, lifetime), |s.scanned|;
      && Picks(s.scanned, Marks(s, true, all, now, lifetime), n, t.scanned, kept)
      && s.free <= t.free && Picks(s.scanned, Marks(s, false, all, now, lifetime), n, t.free[|s.free|..], gone)
      && t.nets == s.nets && t.num == s.num - |gone|
  {
    var n := |s.scanned|;
    kept := Kept(s, n, all, now, lifetime, Marks(s, true, all, now, lifetime), Staying(s, n, all, now, lifetime));
    gone := Gone(s, n, all, now, lifetime, Marks(s, false, all, now, lifetime), Going(s, n, all, now, lifetime));
    assert Purged(s, all, now, lifetime).free[|s.free|..] == Going(s, n, all, now, lifetime);
  }

  lemma {:induction false} Kept(s: State, k: nat, all: bool, now: Time, lifetime: nat, m: seq<bool>, xs: seq<nat>)
    returns (at: seq<nat>)
    requires InRange(s) && k <= |s.scanned| && m == Marks(s, true, all, now, lifetime)
    requires xs == Staying(s, k, all, now, lifetime)
    ensures Picks(s.scanned, m, k, xs, at)
  {
    at := [];
    if k > 0 {
      var ys := Staying(s, k - 1, all, now, lifetime);
      at := Kept(s, k - 1, all, now, lifetime, m, ys);
      NextEntry(s, k - 1, k, all, now, lifetime);
      at := PickedMore(s.scanned, m, k - 1, k, ys, at, xs);
    }
  }

  lemma {:induction false} Gone(s: State, k: nat, all: bool, now: Time, lifetime: nat, m: seq<bool>, xs: seq<nat>)
    returns (at: seq<nat>)
    requires InRange(s) && k <= |s.scanned| && m == Marks(s, false, all, now, lifetime)
    requires xs == Going(s, k, all, now, lifetime)
    ensures Picks(s.scanned, m, k, xs, at)
  {
    at := [];
    if k > 0 {
      var ys := Going(s, k - 1, all, now, lifetime);
      at := Gone(s, k - 1, all, now, lifetime, m, ys);
      NextEntry(s, k - 1, k, all, now, lifetime);
      at := PickedMore(s.scanned, m, k - 1, k, ys, at, xs);
    }
  }

  lemma NextEntry(s: State, j: nat, k: nat, all: bool, now: Time, lifetime: nat)
    requires InRange(s) && k == j + 1 <= |s.scanned|
    ensures var ys, zs := Staying(s, j, all, now, lifetime), Going(s, j, all, now, lifetime);
      && Staying(s, k, all, now, lifetime)
         == (if Marks(s, true, all, now, lifetime)[j] then ys + [s.scanned[j]] else ys)
      && Going(s, k, all, now, lifetime)
         == (if Marks(s, false, all, now, lifetime)[j] then zs + [s.scanned[j]] else zs)
  {
    GoesUnlessStays(s.nets[s.scanned[j]], all, now, lifetime);
  }

  lemma PickedMore(q: seq<nat>, m: seq<bool>, j: nat, k: nat, xs: seq<nat>, t: seq<nat>, ys: seq<nat>)
    returns (at: seq<nat>)
    requires k == j + 1 <= |q| == |m| && Picks(q, m, j, xs, t) && ys == if m[j] then xs + [q[j]] else xs
    ensures Picks(q, m, k, ys, at)
  {
    if m[j] {
      at := t + [j];
      InMore(t, j, at);
    } else {
      at := t;
    }
  }

  lemma InMore(t: seq<nat>, j: nat, at: seq<nat>)
    requires at == t + [j]
    ensures forall i: nat :: i in at <==> i in t || i == j
  {
  }

  /** The networks listed after a purge are no more alike than before. */
  lemma PurgedStaysUniqueFor(s: State, all: bool, now: Time, lifetime: nat, feature: nat)
    requires Shared(s) && UniqueFor(s, feature)
    ensures UniqueFor(Purged(s, all, now, lifetime), feature)
  {
    SharedMeans(s);
    PurgedStaysShared(s, all, now, lifetime);
    var t := Purged(s, all, now, lifetime);
    SharedMeans(t);
    forall i, j | 0 <= i < j < |t.scanned|
      ensures !Same(t.nets[t.scanned[i]].bss, t.nets[t.scanned[j]].bss, feature)
    {
      StayingHolds(s, |s.scanned|, all, now, lifetime, i);
      StayingHolds(s, |s.scanned|, all, now, lifetime, j);
      var a :| 0 <= a < |s.scanned| && s.scanned[a] == t.scanned[i];
      var b :| 0 <= b < |s.scanned| && s.scanned[b] == t.scanned[j];
      assert a != b;
      var lo, hi := if a < b then a else b, if a < b then b else a;
      assert !Same(s.nets[s.scanned[lo]].bss, s.nets[s.scanned[hi]].bss, feature);
    }
  }

  lemma EmptiedStaysShared(s: State)
    requires Shared(s)
    ensures Shared(Emptied(s)) && forall feature :: UniqueFor(Emptied(s), feature)
  {
  }

  lemma CreatedStaysShared(s: State, own: Bss, now: Time)
    requires Shared(s)
    ensures Created(s, own, now).Some? ==>
      Shared(Created(s, own, now).value) && |Created(s, own, now).value.nets| == |s.nets|
  {
    SharedMeans(s);
    if s.free != [] { HandedFirst(s.free, s.scanned); }
  }

  /** The network created is not listed yet, unless in the entry it overwrites; or there is no
      slot for it. */
  predicate Fits(s: State, own: Bss, feature: nat)
    requires InRange(s)
  {
    var r := OldestLoose(s, |s.scanned|);
    || (s.free == [] && r == None)
    || forall i :: 0 <= i < |s.scanned| && Same(s.nets[s.scanned[i]].bss, own, feature) ==> s.free == [] && r == Some(i)
  }

  /** A list without repetitions stays so exactly when the network created fits. */
  lemma CreatedUniqueExactly(s: State, own: Bss, now: Time, feature: nat)
    requires Shared(s) && UniqueFor(s, feature)
    ensures UniqueFor(Apply(s, Create(own, now)), feature) <==> Fits(s, own, feature)
  {
    SharedMeans(s);
    if s.free != [] {
      CreatedBehind(s, own, now, feature);
    } else {
      var r := OldestLoose(s, |s.scanned|);
      if r.Some? { CreatedOver(s, own, now, feature, r.value); }
    }
  }

  lemma CreatedBehind(s: State, own: Bss, now: Time, feature: nat)
    requires Shared(s) && UniqueFor(s, feature) && s.free != []
    ensures UniqueFor(Apply(s, Create(own, now)), feature) <==> Fits(s, own, feature)
  {
    var t, n := Apply(s, Create(own, now)), |s.scanned|;
    CreatedStaysShared(s, own, now);
    SharedMeans(s);
    SharedMeans(t);
    assert t.nets[t.scanned[n]].bss == own;
    forall i | 0 <= i < n ensures t.scanned[i] == s.scanned[i] && t.nets[t.scanned[i]] == s.nets[s.scanned[i]] {
      assert s.free[0] !in s.scanned && s.scanned[i] in s.scanned;
    }
    if UniqueFor(t, feature) {
      forall i | 0 <= i < n ensures !Same(s.nets[s.scanned[i]].bss, own, feature) {
        assert !Same(t.nets[t.scanned[i]].bss, t.nets[t.scanned[n]].bss, feature);
      }
    }
  }

  lemma CreatedOver(s: State, own: Bss, now: Time, feature: nat, r: nat)
    requires Shared(s) && UniqueFor(s, feature) && s.free == [] && OldestLoose(s, |s.scanned|) == Some(r)
    ensures UniqueFor(Apply(s, Create(own, now)), feature) <==> Fits(s, own, feature)
  {
    var t, n := Apply(s, Create(own, now)), |s.scanned|;
    SharedMeans(s);
    assert t.nets[t.scanned[r]].bss == own && t.scanned == s.scanned;
    forall i | 0 <= i < n && i != r ensures t.nets[t.scanned[i]] == s.nets[s.scanned[i]] {
      assert s.scanned[i] != s.scanned[r];
    }
    if UniqueFor(t, feature) {
      forall i | 0 <= i < n && i != r ensures !Same(s.nets[s.scanned[i]].bss, own, feature) {
        var lo, hi := if i < r then i else r, if i < r then r else i;
        assert !Same(t.nets[t.scanned[lo]].bss, t.nets[t.scanned[hi]].bss, feature);
      }
    }
  }

  /** As long as all time stamps lie within half the range of the clock, the loose entry taken is one
      seen longest ago among the loose ones. */
  lemma {:induction false} LooseIsOldest(s: State, k: nat, base: Time)
    requires InRange(s) && k <= |s.scanned|
    requires forall i :: 0 <= i < k ==> (s.nets[s.scanned[i]].seen - base) % WRAP < WRAP / 2
    ensures var r := OldestLoose(s, k);
      r.Some? ==> forall i :: 0 <= i < k && !s.nets[s.scanned[i]].fixed ==>
        (s.nets[s.scanned[r.value]].seen - base) % WRAP <= (s.nets[s.scanned[i]].seen - base) % WRAP
  {
    if k > 0 {
      LooseIsOldest(s, k - 1, base);
      var r := OldestLoose(s, k - 1);
      if r.Some? { LaterMeans(s.nets[s.scanned[r.value]].seen, s.nets[s.scanned[k - 1]].seen, base); }
    }
  }

  /** A network of our own goes into the first free slot, which is queued, or over a loose entry; it
      fails exactly when no slot is free and all entries are fixed. */
  lemma CreatedHolds(s: State, own: Bss, now: Time) returns (x: nat)
    requires Shared(s) && InRange(s)
    ensures Created(s, own, now) == None <==>
      s.free == [] && forall i :: 0 <= i < |s.scanned| ==> s.nets[s.scanned[i]].fixed
    ensures Created(s, own, now).Some? ==>
      var t := Created(s, own, now).value;
      && x < |s.nets| && t.nets == s.nets[x := Net(own, false, now)]
      && (if s.free != [] then x == s.free[0] && t.free == s.free[1..] && t.scanned == s.scanned + [x]
          else t.free == [] && t.scanned == s.scanned && x in s.scanned && !s.nets[x].fixed)
  {
    SharedMeans(s);
    x := if s.free != [] then s.free[0]
         else match OldestLoose(s, |s.scanned|) case None => 0 case Some(r) => s.scanned[r];
  }

  /** The same of the loose entry overwritten by a network of our own. */
  lemma CreatedOverOldest(s: State, own: Bss, now: Time, base: Time) returns (o: nat)
    requires Shared(s) && InRange(s) && s.free == [] && Created(s, own, now).Some?
    requires forall i :: 0 <= i < |s.scanned| ==> (s.nets[s.scanned[i]].seen - base) % WRAP < WRAP / 2
    ensures o < |s.scanned| && Created(s, own, now).value.nets == s.nets[s.scanned[o] := Net(own, false, now)]
    ensures forall i :: 0 <= i < |s.scanned| && !s.nets[s.scanned[i]].fixed ==>
      (s.nets[s.scanned[o]].seen - base) % WRAP <= (s.nets[s.scanned[i]].seen - base) % WRAP
  {
    o := OldestLoose(s, |s.scanned|).value;
    LooseIsOldest(s, |s.scanned|, base);
  }

  // ---- runs -------------------------------------------------------------------------------

  datatype Op =
    | Scan(target: Bss, feature: nat, now: Time, linked: Option<Signal>)
    | Purge(all: bool, now: Time, lifetime: nat)
    | Empty
    | Create(own: Bss, now: Time)

  function Apply(s: State, op: Op): State
    requires Shared(s)
  {
    SharedMeans(s);
    match op
    case Scan(target, feature, now, linked) => Updated(s, target, feature, now, linked)
    case Purge(all, now, lifetime) => Purged(s, all, now, lifetime)
    case Empty => Emptied(s)
    case Create(own, now) => if Created(s, own, now).Some? then Created(s, own, now).value else s
  }

  lemma ApplyStaysShared(s: State, op: Op)
    requires Shared(s)
    ensures Shared(Apply(s, op)) && |Apply(s, op).nets| == |s.nets|
  {
    match op
    case Scan(target, feature, now, linked) => UpdatedStaysShared(s, target, feature, now, linked);
    case Purge(all, now, lifetime) => PurgedStaysShared(s, all, now, lifetime);
    case Empty => EmptiedStaysShared(s);
    case Create(own, now) => CreatedStaysShared(s, own, now);
  }

  function Numbers(n: nat): (r: seq<nat>)
    ensures |r| == n
  {
    if n == 0 then [] else Numbers(n - 1) + [n - 1]
  }

  function Run(nets: seq<Net>, ops: seq<Op>): (s: State)
    requires |nets| > 0
    ensures Shared(s) && |s.nets| == |nets|
  {
    if ops == [] then
      AllFree(|nets|);
      State(nets, Numbers(|nets|), [], 0)
    else
      var s := Run(nets, ops[..|ops| - 1]);
      ApplyStaysShared(s, ops[|ops| - 1]);
      Apply(s, ops[|ops| - 1])
  }

  lemma {:induction false} AllFree(n: nat)
    ensures multiset(Numbers(n)) == AllSlots(n)
  {
    if n > 0 { AllFree(n - 1); }
  }

  /** Over every run from the fresh pool: whenever no slot is free there is an entry to evict. */
  lemma EvictionFindsAnEntry(nets: seq<Net>, ops: seq<Op>)
    requires |nets| > 0
    ensures var s := Run(nets, ops); s.num == |s.scanned| && (s.free == [] ==> |s.scanned| == |nets|)
  {
    SharedMeans(Run(nets, ops));
  }

  /** P2P is off throughout the run, or on throughout. */
  predicate Steady(ops: seq<Op>, feature: nat) {
    forall i :: 0 <= i < |ops| && ops[i].Scan? ==> ops[i].feature == feature
  }

  predicate UniqueAlways(nets: seq<Net>, ops: seq<Op>, feature: nat)
    requires |nets| > 0
  {
    forall n :: 0 <= n <= |ops| ==> UniqueAt(nets, ops, n, feature)
  }

  predicate UniqueAt(nets: seq<Net>, ops: seq<Op>, n: nat, feature: nat)
    requires |nets| > 0 && n <= |ops|
  {
    UniqueFor(Run(nets, ops[..n]), feature)
  }

  predicate CreatesFit(nets: seq<Net>, ops: seq<Op>, feature: nat)
    requires |nets| > 0
  {
    forall n :: 0 <= n < |ops| ==> FitsAt(nets, ops, n, feature)
  }

  predicate FitsAt(nets: seq<Net>, ops: seq<Op>, n: nat, feature: nat)
    requires |nets| > 0 && n < |ops|
  {
    ops[n].Create? ==> InRange(Run(nets, ops[..n])) && Fits(Run(nets, ops[..n]), ops[n].own, feature)
  }

  /** Over every such run: no network is ever listed twice if and only if each network created
      fits when it is created. */
  lemma RunUniqueExactly(nets: seq<Net>, ops: seq<Op>, feature: nat)
    requires |nets| > 0 && Steady(ops, feature)
    ensures UniqueAlways(nets, ops, feature) <==> CreatesFit(nets, ops, feature)
  {
    if UniqueAlways(nets, ops, feature) {
      forall k | 0 <= k < |ops| ensures FitsAt(nets, ops, k, feature) {
        assert UniqueAt(nets, ops, k, feature) && UniqueAt(nets, ops, k + 1, feature);
        LastStep(nets, ops, k, k + 1, feature);
      }
    }
    if CreatesFit(nets, ops, feature) {
      forall k | 0 <= k <= |ops| ensures UniqueAt(nets, ops, k, feature) {
        FittingStaysUnique(nets, ops, k, feature);
      }
    }
  }

  lemma {:induction false} FittingStaysUnique(nets: seq<Net>, ops: seq<Op>, n: nat, feature: nat)
    requires |nets| > 0 && n <= |ops| && Steady(ops, feature) && CreatesFit(nets, ops, feature)
    ensures UniqueAt(nets, ops, n, feature)
  {
    if n == 0 {
      NothingListed(nets, ops, feature);
    } else {
      var m := n - 1;
      FittingStaysUnique(nets, ops, m, feature);
      LastStep(nets, ops, m, n, feature);
    }
  }

  lemma NothingListed(nets: seq<Net>, ops: seq<Op>, feature: nat)
    requires |nets| > 0
    ensures UniqueAt(nets, ops, 0, feature)
  {
    assert ops[..0] == [];
  }

  lemma LastStep(nets: seq<Net>, ops: seq<Op>, n: nat, m: nat, feature: nat)
    requires |nets| > 0 && m == n + 1 <= |ops| && (ops[n].Scan? ==> ops[n].feature == feature)
    ensures UniqueAt(nets, ops, n, feature) ==> (UniqueAt(nets, ops, m, feature) <==> FitsAt(nets, ops, n, feature))
  {
    var front, all := ops[..n], ops[..m];
    RunMore(nets, all, front, ops[n]);
    if UniqueFor(Run(nets, front), feature) { StepUniqueExactly(Run(nets, front), ops[n], feature); }
  }

  lemma StepUniqueExactly(s: State, op: Op, feature: nat)
    requires Shared(s) && UniqueFor(s, feature) && (op.Scan? ==> op.feature == feature)
    ensures UniqueFor(Apply(s, op), feature) <==> (op.Create? ==> Fits(s, op.own, feature))
  {
    match op
    case Scan(target, f, now, linked) => UpdatedStaysUniqueFor(s, target, feature, now, linked);
    case Purge(all, now, lifetime) => PurgedStaysUniqueFor(s, all, now, lifetime, feature);
    case Empty => EmptiedStaysShared(s);
    case Create(own, now) => CreatedUniqueExactly(s, own, now, feature);
  }

  /** So without networks of our own none is listed twice, and with P2P on not even a MAC address
      is. */
  lemma RunStaysUnique(nets: seq<Net>, ops: seq<Op>, feature: nat)
    requires |nets| > 0
    requires forall i :: 0 <= i < |ops| ==> !ops[i].Create? && (ops[i].Scan? ==> ops[i].feature == feature)
    ensures UniqueFor(Run(nets, ops), feature) && Unique(Run(nets, ops))
  {
    RunUniqueExactly(nets, ops, feature);
    assert UniqueAt(nets, ops, |ops|, feature) && ops[..|ops|] == ops;
    KeysDiffer(Run(nets, ops), feature);
  }

  lemma KeysDiffer(s: State, feature: nat)
    requires UniqueFor(s, feature)
    ensures Unique(s)
  {
    forall i, j | 0 <= i < j < |s.scanned| ensures s.nets[s.scanned[i]].bss.key != s.nets[s.scanned[j]].bss.key {
      assert !Same(s.nets[s.scanned[i]].bss, s.nets[s.scanned[j]].bss, feature);
    }
  }

  /** When P2P comes into use during the run, one can be: two names of a device are heard with
      P2P off, and the second again with P2P on. */
  lemma RunDoubles(nets: seq<Net>, a: Bss, b: Bss, now: Time)
    requires |nets| >= 2 && a.key.mac == b.key.mac && a.key != b.key && Replaces(b, a)
    ensures !Unique(Run(nets, [Scan(a, 0, now, None), Scan(b, 0, now, None), Scan(b, 1, now, None)]))
  {
    var op1, op2, op3 := Scan(a, 0, now, None), Scan(b, 0, now, None), Scan(b, 1, now, None);
    var ops := [op1, op2];
    RunMore(nets, [op1, op2, op3], ops, op3);
    ThreeScans(nets, a, b, now, ops);
  }

  lemma ThreeScans(nets: seq<Net>, a: Bss, b: Bss, now: Time, ops: seq<Op>)
    requires |nets| >= 2 && a.key.mac == b.key.mac && a.key != b.key && Replaces(b, a)
    requires ops == [Scan(a, 0, now, None), Scan(b, 0, now, None)]
    ensures !Unique(Updated(Run(nets, ops), b, 1, now, None))
  {
    var none, one := [], [Scan(a, 0, now, None)];
    RunMore(nets, one, none, Scan(a, 0, now, None));
    RunMore(nets, ops, one, Scan(b, 0, now, None));
    var s0, s1, s2 := Run(nets, none), Run(nets, one), Run(nets, ops);
    FirstName(s0, s1, a, now);
    SecondName(s1, s2, a, b, now);
    TwiceListed(s2, a, b, now);
  }

  lemma RunMore(nets: seq<Net>, all: seq<Op>, ops: seq<Op>, op: Op)
    requires |nets| > 0 && all == ops + [op]
    ensures Run(nets, all) == Apply(Run(nets, ops), op)
  {
    assert all[..|all| - 1] == ops;
  }

  lemma FirstName(s: State, t: State, a: Bss, now: Time)
    requires Shared(s) && |s.nets| >= 2 && s.scanned == [] && Shared(t) && t == Updated(s, a, 0, now, None)
    ensures InRange(t) && |t.nets| >= 2 && t.free != [] && |t.scanned| == 1
    ensures t.nets[t.scanned[0]] == Fresh(a, now)
  {
    SharedMeans(s);
    SharedMeans(t);
    assert s.free != [];
  }

  lemma SecondName(s: State, t: State, a: Bss, b: Bss, now: Time)
    requires Shared(s) && InRange(s) && |s.scanned| == 1 && s.free != [] && a.key != b.key
    requires s.nets[s.scanned[0]] == Fresh(a, now) && Shared(t) && t == Updated(s, b, 0, now, None)
    ensures InRange(t) && |t.scanned| == 2
    ensures t.nets[t.scanned[0]] == Fresh(a, now) && t.nets[t.scanned[1]] == Fresh(b, now)
  {
    SharedMeans(s);
    SharedMeans(t);
    assert MatchFrom(s, b, 0, 1) == 1;
    assert MatchFrom(s, b, 0, 0) == 1;
    assert s.free[0] !in s.scanned && s.scanned[0] in s.scanned;
  }

  lemma TwiceListed(s: State, a: Bss, b: Bss, now: Time)
    requires Shared(s) && InRange(s) && |s.scanned| == 2
    requires s.nets[s.scanned[0]] == Fresh(a, now) && s.nets[s.scanned[1]] == Fresh(b, now)
    requires a.key.mac == b.key.mac && a.key != b.key && Replaces(b, a)
    ensures !Unique(Updated(s, b, 1, now, None))
  {
    assert Unique(s);
    DoubledWhenP2pStarts(s, b);
    UniqueUnlessDoubled(s, b, 1, now, None);
  }

  // ---- the code ---------------------------------------------------------------------------

  /** The part of mlme_priv that holds scan results. Pointers to networks are slot numbers. */
  class MlmePriv {
    const buf: array<Net>
    var freePool: seq<nat>
    var scannedQueue: seq<nat>
    var numOfScanned: int

    ghost function Value(): State
      reads this, buf
    {
      State(buf[..], freePool, scannedQueue, numOfScanned)
    }

    ghost predicate Valid()
      reads this, buf
    {
      Shared(Value())
    }

    /** _rtw_init_mlme_priv */
    constructor (count: nat, blank: Net)
      requires count > 0
      ensures Valid() && fresh(buf) && buf.Length == count
      ensures freePool == Numbers(count) && scannedQueue == [] && numOfScanned == 0
    {
      numOfScanned := 0;
      buf := new Net[count](_ => blank);
      freePool, scannedQueue := [], [];
      new;
      var i := 0;
      while i < count
        invariant 0 <= i <= count && freePool == Numbers(i) && scannedQueue == [] && numOfScanned == 0
      {
        freePool := freePool + [i];
        i := i + 1;
      }
      AllFree(count);
    }

    /** _rtw_alloc_network: the slot is in neither list until the caller queues it. */
    method AllocNetwork(now: Time) returns (slot: Option<nat>)
      requires Valid()
      modifies this, buf
      ensures scannedQueue == old(scannedQueue)
      ensures old(freePool) == [] ==> slot == None && Value() == old(Value())
      ensures old(freePool) != [] ==>
        && slot == Some(old(freePool[0])) && freePool == old(freePool)[1..] && numOfScanned == old(numOfScanned) + 1
        && slot.value < buf.Length && slot.value !in scannedQueue
        && buf[..] == old(buf[..])[slot.value := old(buf[..])[slot.value].(fixed := false, seen := now)]
    {
      SharedMeans(Value());
      if freePool == [] { return None; }
      var x := freePool[0];
      freePool := freePool[1..];
      buf[x] := buf[x].(fixed := false, seen := now);
      numOfScanned := numOfScanned + 1;
      return Some(x);
    }

    /** _rtw_free_network, for the entry at position i of the scanned queue. */
    method FreeNetwork(i: nat, all: bool, now: Time, lifetime: nat) returns (gone: bool)
      requires i < |scannedQueue| && scannedQueue[i] < buf.Length
      modifies this
      ensures gone == Goes(buf[old(scannedQueue)[i]], all, now, lifetime)
      ensures scannedQueue == if gone then old(scannedQueue)[..i] + old(scannedQueue)[i + 1..] else old(scannedQueue)
      ensures freePool == if gone then old(freePool) + [old(scannedQueue)[i]] else old(freePool)
      ensures numOfScanned == if gone then old(numOfScanned) - 1 else old(numOfScanned)
      ensures gone <==> !buf[old(scannedQueue)[i]].fixed
                        && (all || (now - buf[old(scannedQueue)[i]].seen) % WRAP >= lifetime * HZ)
    {
      var x := scannedQueue[i];
      if buf[x].fixed { return false; }
      if !all {
        var delta := (now - buf[x].seen) % WRAP / HZ;
        if delta < lifetime { return false; }
      }
      scannedQueue := scannedQueue[..i] + scannedQueue[i + 1..];
      freePool := freePool + [x];
      numOfScanned := numOfScanned - 1;
      return true;
    }

    /** _rtw_free_network_queue */
    method FreeNetworkQueue(all: bool, now: Time, lifetime: nat)
      requires Valid() && InRange(Value())
      modifies this
      ensures Valid() && Value() == Purged(old(Value()), all, now, lifetime)
    {
      ghost var s := Value();
      PurgedStaysShared(s, all, now, lifetime);
      FreeFrom(s, all, now, lifetime);
    }

    /** The first k entries of s are done: those that stay are in front of position i, those that
        go are behind the free list. */
    ghost predicate PurgedTo(s: State, k: nat, i: nat, all: bool, now: Time, lifetime: nat)
      requires InRange(s) && k <= |s.scanned|
      reads this, buf
    {
      && i <= |scannedQueue| && buf[..] == s.nets
      && scannedQueue[..i] == Staying(s, k, all, now, lifetime) && scannedQueue[i..] == s.scanned[k..]
      && freePool == s.free + Going(s, k, all, now, lifetime)
      && numOfScanned == s.num - |Going(s, k, all, now, lifetime)|
    }

    method FreeFrom(ghost s: State, all: bool, now: Time, lifetime: nat)
      requires Value() == s && InRange(s)
      modifies this
      ensures Value() == Purged(s, all, now, lifetime)
    {
      ghost var k, n := 0, |s.scanned|;     // k entries of the old queue are done
      var i := 0;
      while i < |scannedQueue|
        invariant 0 <= k <= n && |scannedQueue| - i == n - k && i >= 0 && PurgedTo(s, k, i, all, now, lifetime)
        decreases |scannedQueue| - i
      {
        ghost var k1 := k + 1;
        i := FreeStep(s, k, k1, i, all, now, lifetime);
        k := k1;
      }
      assert scannedQueue == scannedQueue[..i];
    }

    method FreeStep(ghost s: State, ghost k: nat, ghost k1: nat, i: nat, all: bool, now: Time, lifetime: nat)
      returns (j: nat)
      requires InRange(s) && k1 == k + 1 <= |s.scanned| && PurgedTo(s, k, i, all, now, lifetime)
      requires i < |scannedQueue|
      modifies this
      ensures PurgedTo(s, k1, j, all, now, lifetime) && |scannedQueue| - j == old(|scannedQueue|) - i - 1
    {
      ghost var q := scannedQueue;
      assert q[i] == s.scanned[k] by { assert q[i] == q[i..][0]; }
      var gone := FreeNetwork(i, all, now, lifetime);
      PurgeStep(s, k, k1, all, now, lifetime, q, i, scannedQueue, gone);
      j := if gone then i else i + 1;
    }

    /** free_scanqueue */
    method FreeScanqueue()
      requires Valid()
      modifies this
      ensures Valid() && Value() == Emptied(old(Value()))
      ensures freePool == old(freePool) + old(scannedQueue) && scannedQueue == [] && numOfScanned == 0
    {
      ghost var s := Value();
      EmptiedStaysShared(s);
      MoveAll(s);
    }

    method MoveAll(ghost s: State)
      requires Value() == s
      modifies this
      ensures Value() == Emptied(s)
    {
      ghost var d := 0;
      while scannedQueue != []
        invariant d <= |s.scanned| && scannedQueue == s.scanned[d..] && freePool == s.free + s.scanned[..d]
        invariant numOfScanned == s.num - d && buf[..] == s.nets
        decreases |scannedQueue|
      {
        assert s.scanned[..d + 1] == s.scanned[..d] + [scannedQueue[0]];
        freePool := freePool + [scannedQueue[0]];
        scannedQueue := scannedQueue[1..];
        numOfScanned := numOfScanned - 1;
        d := d + 1;
      }
      assert s.scanned[..d] == s.scanned;
    }

    /** The search for the frame's network, and for the oldest entry on the way. */
    method Search(target: Bss, feature: nat) returns (i: nat, oldest: Option<nat>)
      requires InRange(Value())
      ensures i == MatchFrom(Value(), target, feature, 0)
      ensures i == |scannedQueue| > 0 ==> oldest == Some(scannedQueue[OldestOf(Value(), |scannedQueue|)])
    {
      ghost var s := Value();
      i, oldest := 0, None;
      while i < |scannedQueue|
        invariant i <= |scannedQueue| && MatchFrom(s, target, feature, 0) == MatchFrom(s, target, feature, i)
        invariant oldest == if i == 0 then None else Some(s.scanned[OldestOf(s, i)])
      {
        var x := scannedQueue[i];
        if Same(buf[x].bss, target, feature) { return; }
        if oldest == None || Later(buf[oldest.value].seen, buf[x].seen) { oldest := Some(x); }
        i := i + 1;
      }
    }

    /** rtw_update_scanned_network */
    method UpdateScannedNetwork(target: Bss, feature: nat, now: Time, linked: Option<Signal>)
      requires Valid()
      modifies this, buf
      ensures Valid() && Value() == Updated(old(Value()), target, feature, now, linked)
    {
      ghost var s := Value();
      SharedMeans(s);
      UpdatedStaysShared(s, target, feature, now, linked);
      var i, oldest := Search(target, feature);
      if i < |scannedQueue| {
        var x := scannedQueue[i];
        buf[x] := Refreshed(buf[x], target, now, linked);
      } else if freePool == [] {
        buf[oldest.value] := Fresh(target, now);
      } else {
        TakeSlot(target, now);
      }
    }

    /** A free slot is filled and queued. */
    method TakeSlot(target: Bss, now: Time)
      requires Valid() && freePool != []
      modifies this, buf
      ensures old(freePool[0]) < buf.Length
      ensures var s := old(Value());
        Value() == State(s.nets[s.free[0] := Fresh(target, now)], s.free[1..], s.scanned + [s.free[0]], s.num + 1)
    {
      var slot := AllocNetwork(now);
      buf[slot.value] := Fresh(target, now);
      scannedQueue := scannedQueue + [slot.value];
    }

    /** rtw_get_oldest_wlan_network */
    method GetOldest() returns (oldest: Option<nat>)
      requires InRange(Value())
      ensures var r := OldestLoose(Value(), |scannedQueue|);
        oldest == if r.Some? then Some(scannedQueue[r.value]) else None
    {
      ghost var s := Value();
      oldest := None;
      var i := 0;
      while i < |scannedQueue|
        invariant i <= |scannedQueue|
        invariant oldest == if OldestLoose(s, i).Some? then Some(s.scanned[OldestLoose(s, i).value]) else None
      {
        var x := scannedQueue[i];
        if !buf[x].fixed {
          if oldest == None || Later(buf[oldest.value].seen, buf[x].seen) { oldest := Some(x); }
        }
        i := i + 1;
      }
    }

    /** The slot part of rtw_createbss_cmd_callback. */
    method CreateBss(own: Bss, now: Time) returns (ok: bool)
      requires Valid()
      modifies this, buf
      ensures Valid() && ok == Created(old(Value()), own, now).Some?
      ensures Value() == if ok then Created(old(Value()), own, now).value else old(Value())
    {
      ghost var s := Value();
      SharedMeans(s);
      CreatedStaysShared(s, own, now);
      var slot := AllocNetwork(now);
      if slot == None {
        var oldest := GetOldest();
        if oldest == None { return false; }
        buf[oldest.value] := buf[oldest.value].(bss := own, seen := now);
      } else {
        scannedQueue := scannedQueue + [slot.value];
        buf[slot.value] := buf[slot.value].(bss := own);
      }
      assert Value() == Created(s, own, now).value;
      return true;
    }
  }

  lemma PurgeStep(s: State, k: nat, k1: nat, all: bool, now: Time, lifetime: nat,
                  q: seq<nat>, i: nat, q': seq<nat>, gone: bool)
    requires InRange(s) && k < |s.scanned| && i < |q| && k1 == k + 1
    requires q[..i] == Staying(s, k, all, now, lifetime) && q[i..] == s.scanned[k..]
    requires gone == Goes(s.nets[s.scanned[k]], all, now, lifetime)
    requires q' == if gone then q[..i] + q[i + 1..] else q
    ensures var j := if gone then i else i + 1;
      q'[..j] == Staying(s, k1, all, now, lifetime) && q'[j..] == s.scanned[k1..]
    ensures Going(s, k1, all, now, lifetime) == Going(s, k, all, now, lifetime) + if gone then [q[i]] else []
  {
    assert q[i] == q[i..][0] == s.scanned[k];
    assert q[i + 1..] == q[i..][1..] == s.scanned[k..][1..] == s.scanned[k1..];
    if !gone { assert q[..i + 1] == q[..i] + [q[i]]; }
  }
}
