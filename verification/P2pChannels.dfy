/** Channels in the group-owner negotiation (core/rtw_p2p.c): reading the peer's channel list,
    meeting it with our own in one pass, and choosing the operating channel. */
module P2pChannels {
  import opened Bytes

  // ---- the peer's channel list ------------------------------------------------------------

  /** One operating class of the attribute, with its channels. */
  datatype Entry = Entry(class_: Byte, channels: seq<Byte>)

  function EncEntry(e: Entry): seq<Byte>
    requires |e.channels| < 256
  {
    [e.class_, |e.channels|] + e.channels
  }

  predicate Small(es: seq<Entry>) {
    forall i :: 0 <= i < |es| ==> |es[i].channels| < 256
  }

  function EncEntries(es: seq<Entry>): seq<Byte>
    requires Small(es)
  {
    if es == [] then [] else EncEntry(es[0]) + EncEntries(es[1..])
  }

  function Channels(es: seq<Entry>): seq<Byte> {
    if es == [] then [] else es[0].channels + Channels(es[1..])
  }

  /** The entries tile the bytes behind the country string. */
  predicate Tiled(w: seq<Byte>) {
    w == [] || (|w| >= 2 && 2 + w[1] as int <= |w| && Tiled(w[2 + w[1] as int..]))
  }

  /** The channels of all entries in a row. */
  function Listed(w: seq<Byte>): (r: seq<Byte>)
    requires Tiled(w)
    ensures |r| <= |w|
  {
    if w == [] then [] else w[2..2 + w[1] as int] + Listed(w[2 + w[1] as int..])
  }

  lemma {:induction false} ListedIs(es: seq<Entry>)
    requires Small(es)
    ensures Tiled(EncEntries(es)) && Listed(EncEntries(es)) == Channels(es)
  {
    if es != [] {
      ListedIs(es[1..]);
      var w, e, rest := EncEntries(es), es[0].channels, EncEntries(es[1..]);
      assert w == [es[0].class_, |e|] + e + rest;
      assert w[1] as int == |e| && w[2..2 + |e|] == e && w[2 + |e|..] == rest;
    }
  }

  /** rtw_p2p_get_peer_ch_list: `content` starts with the three bytes of the country string. */
  method GetPeerChList(content: seq<Byte>, peer: array<Byte>) returns (n: nat)
    requires 3 <= |content| < 256 && Tiled(content[3..]) && peer.Length >= |content|
    modifies peer
    ensures n <= peer.Length && peer[..n] == Listed(content[3..])
  {
    var at: nat, cnt := 3, |content|;
    n := 0;
    ghost var all := Listed(content[3..]);
    while at < cnt
      invariant 3 <= at <= cnt && Tiled(content[at..])
      invariant n <= at - 3 && peer[..n] + Listed(content[at..]) == all
    {
      var temp: nat := content[at + 1];
      var from, end: nat := at + 2, at + 2 + temp;
      EntryStep(content, at, from, end, peer[..n]);
      n := CopyChannels(content, from, end, peer, n);
      at := end;
    }
  }

  lemma EntryStep(content: seq<Byte>, at: nat, from: nat, end: nat, done: seq<Byte>)
    requires at < |content| && Tiled(content[at..]) && from == at + 2
    requires at + 1 < |content| ==> end == from + content[at + 1] as int
    ensures end <= |content| && Tiled(content[end..])
    ensures done + Listed(content[at..]) == (done + content[from..end]) + Listed(content[end..])
  {
    var w, m := content[at..], end - at;
    assert w[1] == content[at + 1];
    assert w[2..m] == content[from..end] && w[m..] == content[end..];
  }

  /** The channels of one entry. */
  method CopyChannels(content: seq<Byte>, from: nat, end: nat, peer: array<Byte>, n0: nat) returns (n: nat)
    requires from <= end <= |content| && n0 + (end - from) <= peer.Length
    modifies peer
    ensures n == n0 + (end - from) && peer[..n] == old(peer[..n0]) + content[from..end]
  {
    var i := from;
    n := n0;
    while i < end
      invariant from <= i <= end && n == n0 + (i - from) && peer[..n] == old(peer[..n0]) + content[from..i]
    {
      peer[n] := content[i];
      assert content[from..i + 1] == content[from..i] + [content[i]];
      assert peer[..n + 1] == peer[..n] + [content[i]];
      n, i := n + 1, i + 1;
    }
  }

  // ---- meeting the two lists --------------------------------------------------------------

  /** The position at or behind `from` where our list has the channel; |ours| if it has not. */
  function Seek(ours: seq<Byte>, from: nat, ch: Byte): (r: nat)
    requires from <= |ours|
    ensures from <= r <= |ours|
    ensures r < |ours| ==> ours[r] == ch
    ensures forall j :: from <= j < r ==> ours[j] != ch
    decreases |ours| - from
  {
    if from == |ours| || ours[from] == ch then from else Seek(ours, from + 1, ch)
  }

  /** What one pass finds of the peer's channels, when it never looks back behind `from`. */
  function OnePass(peer: seq<Byte>, ours: seq<Byte>, from: nat): (r: seq<Byte>)
    requires from <= |ours|
    ensures |r| <= |peer|
  {
    if peer == [] then []
    else
      var j := Seek(ours, from, peer[0]);
      if j < |ours| then [peer[0]] + OnePass(peer[1..], ours, j) else OnePass(peer[1..], ours, from)
  }

  lemma OnePassStep(rest: seq<Byte>, tail: seq<Byte>, ours: seq<Byte>, from: nat, ch: Byte, j: nat)
    requires from <= |ours| && rest != [] && rest[0] == ch && tail == rest[1..] && j == Seek(ours, from, ch)
    ensures OnePass(rest, ours, from) ==
      if j < |ours| then [ch] + OnePass(tail, ours, j) else OnePass(tail, ours, from)
  {
  }

  /** The channels both have, in the peer's order. */
  function Common(peer: seq<Byte>, ours: seq<Byte>): seq<Byte> {
    if peer == [] then []
    else if peer[0] in ours then [peer[0]] + Common(peer[1..], ours)
    else Common(peer[1..], ours)
  }

  predicate Ascending(s: seq<Byte>) {
    forall i, j :: 0 <= i < j < |s| ==> s[i] <= s[j]
  }

  /** One pass finds only channels that both have. */
  lemma {:induction false} OnePassInBoth(peer: seq<Byte>, ours: seq<Byte>, from: nat)
    requires from <= |ours|
    ensures forall ch :: ch in OnePass(peer, ours, from) ==> ch in peer && ch in ours
  {
    if peer != [] {
      OnePassInBoth(peer[1..], ours, Seek(ours, from, peer[0]));
      OnePassInBoth(peer[1..], ours, from);
    }
  }

  /** When both lists ascend it finds all of them. */
  lemma {:induction false} OnePassIsCommon(peer: seq<Byte>, ours: seq<Byte>, from: nat)
    requires from <= |ours| && Ascending(peer) && Ascending(ours)
    requires forall i, j :: 0 <= i < |peer| && 0 <= j < from ==>
      peer[i] != ours[j] || (from < |ours| && ours[from] == ours[j])
    ensures OnePass(peer, ours, from) == Common(peer, ours)
  {
    if peer != [] {
      var j := Seek(ours, from, peer[0]);
      if j < |ours| {
        OnePassIsCommon(peer[1..], ours, j);
      } else {
        assert forall k :: 0 <= k < |ours| ==> ours[k] != peer[0];
        OnePassIsCommon(peer[1..], ours, from);
      }
    }
  }

  /** The channels can be met walking up our list once. */
  predicate InOrder(chs: seq<Byte>, ours: seq<Byte>, from: nat)
    requires from <= |ours|
  {
    chs == [] || (Seek(ours, from, chs[0]) < |ours| && InOrder(chs[1..], ours, Seek(ours, from, chs[0])))
  }

  /** In general it finds each of them as often as the peer lists it exactly when the common
      channels, in the peer's order and with repetitions, come in our order too. */
  lemma {:induction false} OnePassKeepsRepeats(peer: seq<Byte>, ours: seq<Byte>, from: nat)
    requires from <= |ours|
    ensures OnePass(peer, ours, from) == Common(peer, ours) <==> InOrder(Common(peer, ours), ours, from)
  {
    if peer != [] {
      var j, rest := Seek(ours, from, peer[0]), Common(peer[1..], ours);
      if j < |ours| {
        OnePassKeepsRepeats(peer[1..], ours, j);
        assert ([peer[0]] + OnePass(peer[1..], ours, j))[1..] == OnePass(peer[1..], ours, j);
        assert ([peer[0]] + rest)[1..] == rest;
      } else {
        OnePassKeepsRepeats(peer[1..], ours, from);
        FoundBehind(peer[1..], ours, from);
        if peer[0] in ours {
          assert Common(peer, ours)[0] == peer[0];
          assert peer[0] !in OnePass(peer[1..], ours, from);
        }
      }
    }
  }

  lemma SeekFurther(ours: seq<Byte>, from: nat, j: nat, ch: Byte)
    requires from <= j <= |ours| && Seek(ours, j, ch) < |ours|
    ensures Seek(ours, from, ch) < |ours|
  {
    assert ours[Seek(ours, j, ch)] == ch;
  }

  lemma {:induction false} FoundBehind(peer: seq<Byte>, ours: seq<Byte>, from: nat)
    requires from <= |ours|
    ensures forall ch :: ch in OnePass(peer, ours, from) ==> Seek(ours, from, ch) < |ours|
  {
    if peer != [] {
      var j := Seek(ours, from, peer[0]);
      FoundBehind(peer[1..], ours, if j < |ours| then j else from);
      forall ch | ch in OnePass(peer, ours, from) ensures Seek(ours, from, ch) < |ours| {
        if j < |ours| && ch != peer[0] { SeekFurther(ours, from, j, ch); }
      }
    }
  }

  // Our own list, the driver's channel_set, has no repetitions.

  predicate NoRepeats(ours: seq<Byte>) {
    forall i, j :: 0 <= i < j < |ours| ==> ours[i] != ours[j]
  }

  function Place(ours: seq<Byte>, ch: Byte): (r: nat)
    requires ch in ours
    ensures r < |ours| && ours[r] == ch
  {
    Seek(ours, 0, ch)
  }

  /** None of the peer's channels in front of position i lies behind its channel there in our
      list. */
  predicate Met(peer: seq<Byte>, ours: seq<Byte>, i: nat)
    requires i < |peer|
  {
    && peer[i] in ours
    && forall k :: 0 <= k < i && peer[k] in ours ==> Place(ours, peer[k]) <= Place(ours, peer[i])
  }

  /** The channels at the positions from i on that are met. */
  function MetFrom(peer: seq<Byte>, ours: seq<Byte>, i: nat): seq<Byte>
    requires i <= |peer|
    decreases |peer| - i
  {
    if i == |peer| then []
    else if Met(peer, ours, i) then [peer[i]] + MetFrom(peer, ours, i + 1)
    else MetFrom(peer, ours, i + 1)
  }

  /** How far up our list the pass has come before position i. */
  predicate Reached(peer: seq<Byte>, ours: seq<Byte>, i: nat, from: nat)
    requires i <= |peer|
  {
    && (forall k :: 0 <= k < i && peer[k] in ours ==> Place(ours, peer[k]) <= from)
    && (from == 0 || exists k :: 0 <= k < i && peer[k] in ours && Place(ours, peer[k]) == from)
  }

  /** The pass finds exactly the channels at those positions, in the peer's order. */
  lemma OnePassIsMet(peer: seq<Byte>, ours: seq<Byte>)
    requires NoRepeats(ours)
    ensures OnePass(peer, ours, 0) == MetFrom(peer, ours, 0)
  {
    assert peer[0..] == peer;
    OnePassFrom(peer, ours, 0, 0);
  }

  lemma {:induction false} OnePassFrom(peer: seq<Byte>, ours: seq<Byte>, i: nat, from: nat)
    requires NoRepeats(ours) && i <= |peer| && from <= |ours| && Reached(peer, ours, i, from)
    ensures OnePass(peer[i..], ours, from) == MetFrom(peer, ours, i)
    decreases |peer| - i
  {
    if i < |peer| {
      var next := i + 1;
      var ch, rest, tail := peer[i], peer[i..], peer[next..];
      var j := Seek(ours, from, ch);
      OnePassStep(rest, tail, ours, from, ch, j);
      MetWhenBehind(peer, ours, i, from, ch);
      OnePassFrom(peer, ours, next, if j < |ours| then j else from);
    }
  }

  /** A channel is met exactly when it is found behind the point reached. */
  lemma MetWhenBehind(peer: seq<Byte>, ours: seq<Byte>, i: nat, from: nat, ch: Byte)
    requires NoRepeats(ours) && i < |peer| && ch == peer[i] && from <= |ours| && Reached(peer, ours, i, from)
    ensures Met(peer, ours, i) <==> Seek(ours, from, ch) < |ours|
    ensures var j := Seek(ours, from, ch); Reached(peer, ours, i + 1, if j < |ours| then j else from)
  {
    var j := Seek(ours, from, ch);
    if ch in ours {
      var p := Place(ours, ch);
      if j < |ours| {
        assert p == j by { assert ours[p] == ours[j]; }
      } else {
        assert p < from;
      }
      assert Met(peer, ours, i) <==> from <= p;
    }
  }

  lemma {:induction false} MetHolds(peer: seq<Byte>, ours: seq<Byte>, i: nat, ch: Byte)
    requires i <= |peer|
    ensures ch in MetFrom(peer, ours, i) <==> exists k :: i <= k < |peer| && peer[k] == ch && Met(peer, ours, k)
    decreases |peer| - i
  {
    if i < |peer| { MetHolds(peer, ours, i + 1, ch); }
  }

  /** Position i is the first at which the peer lists its channel. */
  predicate First(peer: seq<Byte>, i: nat) {
    i < |peer| && peer[i] !in peer[..i]
  }

  /** A channel is found exactly when the peer lists it somewhere with nothing in front that lies
      behind it in our list ... */
  lemma OnePassExact(peer: seq<Byte>, ours: seq<Byte>, ch: Byte)
    requires NoRepeats(ours)
    ensures ch in OnePass(peer, ours, 0) <==> exists k :: 0 <= k < |peer| && peer[k] == ch && Met(peer, ours, k)
  {
    OnePassIsMet(peer, ours);
    MetHolds(peer, ours, 0, ch);
  }

  /** ... and its first occurrence decides. */
  lemma FirstDecides(peer: seq<Byte>, ours: seq<Byte>, i: nat)
    requires NoRepeats(ours) && First(peer, i)
    ensures peer[i] in OnePass(peer, ours, 0) <==> Met(peer, ours, i)
  {
    OnePassExact(peer, ours, peer[i]);
    forall k | 0 <= k < i ensures peer[k] != peer[i] {
      assert peer[k] in peer[..i];
    }
  }

  /** The common channels, each where the peer lists it first, come in our order. */
  predicate FirstsInOrder(peer: seq<Byte>, ours: seq<Byte>) {
    forall k, i :: 0 <= k < i < |peer| && peer[k] in ours && peer[i] in ours && First(peer, i) ==>
      Place(ours, peer[k]) <= Place(ours, peer[i])
  }

  /** So no common channel is lost exactly when these first occurrences come in our order. */
  lemma NoneLostExactly(peer: seq<Byte>, ours: seq<Byte>)
    requires NoRepeats(ours)
    ensures (forall ch :: ch in peer && ch in ours ==> ch in OnePass(peer, ours, 0)) <==> FirstsInOrder(peer, ours)
  {
    if FirstsInOrder(peer, ours) {
      forall ch | ch in peer && ch in ours ensures ch in OnePass(peer, ours, 0) {
        var i := FirstOf(peer, ch);
        FirstDecides(peer, ours, i);
      }
    } else {
      var k, i :| 0 <= k < i < |peer| && peer[k] in ours && peer[i] in ours && First(peer, i)
                  && Place(ours, peer[k]) > Place(ours, peer[i]);
      FirstDecides(peer, ours, i);
      assert peer[i] in peer && peer[i] in ours && peer[i] !in OnePass(peer, ours, 0);
    }
  }

  lemma FirstOf(peer: seq<Byte>, ch: Byte) returns (i: nat)
    requires ch in peer
    ensures First(peer, i) && peer[i] == ch
  {
    i := Seek(peer, 0, ch);
  }

  /** Our own list ascends in every channel plan; then it is enough that the peer's channels
      ascend where they are listed first, as they do in overlapping operating classes. */
  lemma AscendingFirstsSuffice(peer: seq<Byte>, ours: seq<Byte>)
    requires NoRepeats(ours) && Ascending(ours)
    requires forall k, i :: 0 <= k < i < |peer| && First(peer, i) ==> peer[k] <= peer[i]
    ensures forall ch :: ch in peer && ch in ours ==> ch in OnePass(peer, ours, 0)
  {
    NoneLostExactly(peer, ours);
  }

  /** It finds a channel exactly when there is a common one: so the refusal for lack of common
      channels is right whatever the order. */
  lemma {:induction false} OnePassFindsSome(peer: seq<Byte>, ours: seq<Byte>)
    ensures OnePass(peer, ours, 0) == [] <==> Common(peer, ours) == []
  {
    if peer != [] { OnePassFindsSome(peer[1..], ours); }
  }

  /** A peer that lists its channels the other way round loses some, and a GO that operates on one
      of those gives it up. */
  lemma OnePassMissesSome(a: Byte, b: Byte)
    requires a < b
    ensures OnePass([b, a], [a, b], 0) == [b] && Common([b, a], [a, b]) == [b, a]
    ensures Chosen(a, b, OnePass([b, a], [a, b], 0)) == b
  {
    assert [b, a][1..] == [a] && [a][1..] == [];
    assert Seek([a, b], 0, b) == 1;
    assert Seek([a, b], 1, a) == 2;
    assert OnePass([a], [a, b], 1) == [];
    assert Common([a], [a, b]) == [a];
  }

  /** rtw_p2p_ch_inclusion */
  method ChInclusion(ours: seq<Byte>, peer: seq<Byte>, found: array<Byte>) returns (n: nat)
    requires found.Length >= |peer|
    modifies found
    ensures n <= found.Length && found[..n] == OnePass(peer, ours, 0)
  {
    var i, temp: nat := 0, 0;
    n := 0;
    ghost var rest, done := peer, [];
    ghost var all := OnePass(rest, ours, 0);
    while i < |peer|
      invariant 0 <= i <= |peer| && temp <= |ours| && n <= i
      invariant rest == peer[i..] && found[..n] == done && done + OnePass(rest, ours, temp) == all
    {
      var j := SeekFrom(ours, temp, peer[i]);
      ghost var tail := rest[1..];
      OnePassStep(rest, tail, ours, temp, peer[i], j);
      if j < |ours| {
        done := Noted(found, n, peer[i], done, OnePass(tail, ours, j), all);
        n := n + 1;
        temp := j;
      }
      rest := tail;
      i := i + 1;
    }
  }

  /** The inner loop. */
  method SeekFrom(ours: seq<Byte>, from: nat, ch: Byte) returns (j: nat)
    requires from <= |ours|
    ensures j == Seek(ours, from, ch)
  {
    j := from;
    while j < |ours| && ch != ours[j]
      invariant from <= j <= |ours| && Seek(ours, from, ch) == Seek(ours, j, ch)
    {
      j := j + 1;
    }
  }

  method Noted(found: array<Byte>, n: nat, ch: Byte, ghost done: seq<Byte>, ghost rest: seq<Byte>, ghost all: seq<Byte>)
    returns (ghost done': seq<Byte>)
    requires n < found.Length && found[..n] == done && done + ([ch] + rest) == all
    modifies found
    ensures found[..n + 1] == done' && done' + rest == all
  {
    found[n] := ch;
    done' := done + [ch];
    assert found[..n + 1] == found[..n] + [ch];
  }

  // ---- the operating channel ----------------------------------------------------------------

  /** rtw_p2p_is_channel_list_ok */
  method IsChannelListOk(desired: Byte, list: array<Byte>, n: nat) returns (found: bool)
    requires n <= list.Length
    ensures found <==> desired in list[..n]
  {
    found := false;
    var i := 0;
    while i < n
      invariant 0 <= i <= n && desired !in list[..i] && !found
    {
      assert list[..i + 1] == list[..i] + [list[i]];
      if list[i] == desired { found := true; break; }
      i := i + 1;
    }
  }

  /** The channel the GO ends with: its own, else the peer's, else the first common one. */
  function Chosen(own: Byte, peerOp: Byte, common: seq<Byte>): (r: Byte)
    requires common != []
    ensures r in common
    ensures own in common ==> r == own
    ensures own !in common && peerOp in common ==> r == peerOp
    ensures own !in common && peerOp !in common ==> r == common[0]
  {
    if own in common then own else if peerOp in common then peerOp else common[0]
  }

  datatype Outcome = NoCommonChannel | Accepted(operating: Byte)

  /** The channel part of process_p2p_group_negotation_req and _resp. The peer's operating channel
      is 0 when the frame does not tell. */
  method MeetChannels(own: Byte, isGo: bool, ours: seq<Byte>, content: seq<Byte>, peerOp: Byte)
    returns (r: Outcome)
    requires 3 <= |content| <= 100 && Tiled(content[3..])
    ensures var common := OnePass(Listed(content[3..]), ours, 0);
      r == if common == [] then NoCommonChannel
           else Accepted(if isGo then Chosen(own, peerOp, common) else own)
  {
    var peerList := new Byte[100](_ => 0);
    var num := GetPeerChList(content, peerList);
    var common := new Byte[100](_ => 0);
    var n := ChInclusion(ours, peerList[..num], common);
    ghost var c := common[..n];
    if n == 0 { return NoCommonChannel; }
    var operating := own;
    if isGo {
      var ok := IsChannelListOk(own, common, n);
      if !ok {
        var peerOk := IsChannelListOk(peerOp, common, n);
        operating := if peerOk then peerOp else common[0];
        assert c[0] == common[0];
      }
    }
    return Accepted(operating);
  }

  /** A GO that accepts ends on a channel both sides have. */
  lemma GoEndsOnCommonChannel(own: Byte, ours: seq<Byte>, es: seq<Entry>, peerOp: Byte)
    requires Small(es) && OnePass(Channels(es), ours, 0) != []
    ensures var r := Chosen(own, peerOp, OnePass(Channels(es), ours, 0)); r in Channels(es) && r in ours
    ensures Ascending(Channels(es)) && Ascending(ours) && own in Channels(es) && own in ours ==>
      Chosen(own, peerOp, OnePass(Channels(es), ours, 0)) == own
  {
    OnePassInBoth(Channels(es), ours, 0);
    if Ascending(Channels(es)) && Ascending(ours) {
      OnePassIsCommon(Channels(es), ours, 0);
      CommonHolds(Channels(es), ours, own);
    }
  }

  /** It ends on its own exactly when nothing the peer lists before it lies behind it in our
      list. */
  lemma GoKeepsOwnChannel(own: Byte, ours: seq<Byte>, peer: seq<Byte>, peerOp: Byte)
    requires NoRepeats(ours) && OnePass(peer, ours, 0) != []
    ensures Chosen(own, peerOp, OnePass(peer, ours, 0)) == own <==>
      exists i: nat :: First(peer, i) && peer[i] == own && Met(peer, ours, i)
  {
    OnePassInBoth(peer, ours, 0);
    if own in peer {
      var i := FirstOf(peer, own);
      FirstDecides(peer, ours, i);
    }
    forall i: nat | First(peer, i) && peer[i] == own && Met(peer, ours, i) ensures own in OnePass(peer, ours, 0) {
      FirstDecides(peer, ours, i);
    }
  }

  lemma {:induction false} CommonHolds(peer: seq<Byte>, ours: seq<Byte>, ch: Byte)
    ensures ch in Common(peer, ours) <==> ch in peer && ch in ours
  {
    if peer != [] { CommonHolds(peer[1..], ours, ch); }
  }
}
