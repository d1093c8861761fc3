/** PPPoE discovery through the bridge (core/rtw_br_ext.c): a relay tag (RFC 2516, Appendix A)
    put into a client's PADI or PADR carries the client's MAC address, and the access
    concentrator's PADO or PADS brings it back. Frames are rewritten in place. */
module PppoeRelay {
  import opened Bytes
  import opened Tlv

  const TAGS: nat := 20            // first tag: Ethernet header, PPPoE header
  const LENGTH: nat := 18          // ph->length
  const CODE: nat := 15            // ph->code
  const RELAY: nat := 0x0110       // PTT_RELAY_SID
  const MAGIC: seq<Byte> := [0x81, 0x86]
  const STAMP: nat := 8            // MAGIC_CODE_LEN + RTL_RELAY_TAG_LEN
  const TAG_BUF: nat := 40

  const PADI: Byte := 0x09
  const PADO: Byte := 0x07
  const PADR: Byte := 0x19
  const PADS: Byte := 0x65

  type Head = h: seq<Byte> | |h| == LENGTH witness seq(LENGTH, _ => 0)

  function Layout(head: Head, payload: seq<Byte>, pad: seq<Byte>): seq<Byte> {
    head + ToBe16(|payload|) + payload + pad
  }

  /** Destination, source, EtherType, version, code and session; the tags; what lies behind
      the PPPoE payload. */
  datatype Frame = Frame(head: Head, tags: seq<Elem>, pad: seq<Byte>) {
    function Dst(): seq<Byte> { head[..6] }
    function Src(): seq<Byte> { head[6..12] }
    function To(mac: seq<Byte>): Frame
      requires |mac| == 6
    {
      Frame(mac + head[6..], tags, pad)
    }
    function Payload(): seq<Byte> { EncAll(PppoeTag, tags) }
    function Bytes(): seq<Byte> { Layout(head, Payload(), pad) }

    /** The tags fit their headers, and the payload length its field even with one relay tag
        more. */
    predicate Valid() {
      && (forall k :: 0 <= k < |tags| ==> Fits(PppoeTag, tags[k]))
      && |Payload()| + STAMP + 4 < 0x1_0000
    }
  }

  /** The tag the handlers look at: the first relay tag. */
  function RelayAt(f: Frame): (k: nat)
    ensures k <= |f.tags|
  {
    First(f.tags, OfType(RELAY), 0)
  }

  function OldRelay(f: Frame): seq<Byte> {
    if RelayAt(f) < |f.tags| then f.tags[RelayAt(f)].data else []
  }

  function WithoutRelay(f: Frame): Frame {
    if RelayAt(f) < |f.tags| then f.(tags := Without(f.tags, RelayAt(f))) else f
  }

  /** The tag that travels upstream. */
  function Stamped(f: Frame): Elem {
    Elem(RELAY, MAGIC + f.Src() + OldRelay(f))
  }

  /** The client's frame as forwarded, up to the bytes behind the payload. */
  function Forwarded(f: Frame, pad: seq<Byte>): Frame {
    Frame(f.head, [Stamped(f)] + WithoutRelay(f).tags, pad)
  }

  /** The reply has our stamp in its first relay tag. */
  predicate Ours(f: Frame) {
    var k := RelayAt(f);
    k < |f.tags| && |f.tags[k].data| >= STAMP && f.tags[k].data[..2] == MAGIC
  }

  /** A reply is taken for ours exactly when its first relay tag begins with the magic and has room
      for a MAC address. */
  lemma OursMeans(f: Frame)
    ensures Ours(f) <==> exists k :: 0 <= k < |f.tags| && FirstRelay(f, k) && |f.tags[k].data| >= 8
                                     && f.tags[k].data[0] == 0x81 && f.tags[k].data[1] == 0x86
  {
    var k := RelayAt(f);
    assert k < |f.tags| ==> FirstRelay(f, k);
    forall j | 0 <= j < |f.tags| && FirstRelay(f, j) ensures j == k {
      assert OfType(RELAY)(f.tags[j]);
    }
    if k < |f.tags| && |f.tags[k].data| >= STAMP {
      var m := f.tags[k].data[..2];
      assert m == MAGIC <==> m[0] == 0x81 && m[1] == 0x86;
    }
  }

  predicate FirstRelay(f: Frame, k: nat)
    requires k < |f.tags|
  {
    f.tags[k].id == 0x0110 && forall j :: 0 <= j < k ==> f.tags[j].id != 0x0110
  }

  /** The reply as delivered: addressed to the stamped client, the stamp gone. */
  function Delivered(f: Frame): Frame
    requires Ours(f)
  {
    var k := RelayAt(f);
    var d := f.tags[k].data;
    f.To(d[2..STAMP]).(tags := if |d| > STAMP then f.tags[k := Elem(RELAY, d[STAMP..])] else Without(f.tags, k))
  }

  // ---- the round trip -----------------------------------------------------------------

  /** What goes up with a client's PADI or PADR comes down on any reply whose first relay tag
      echoes it: the reply is addressed to that client and the tag holds again what the client
      sent, or is dropped when that was nothing. All other tags stay, in order. */
  lemma RelayRoundTrip(f: Frame, pad: seq<Byte>, reply: Frame)
    requires RelayAt(reply) < |reply.tags| && reply.tags[RelayAt(reply)] == Forwarded(f, pad).tags[0]
    ensures Ours(reply)
    ensures Delivered(reply).Dst() == f.Src() && Delivered(reply).head[6..] == reply.head[6..]
    ensures Delivered(reply).pad == reply.pad
    ensures Delivered(reply).tags == if OldRelay(f) == [] then Without(reply.tags, RelayAt(reply))
                                     else reply.tags[RelayAt(reply) := Elem(RELAY, OldRelay(f))]
  {
    var d := Stamped(f).data;
    assert d[..2] == MAGIC && d[2..STAMP] == f.Src() && d[STAMP..] == OldRelay(f);
  }

  /** The forwarded frame itself is such a reply, and delivering it to its sender gives back
      the sender's tags with the relay tag in front. */
  lemma EchoOfForwarded(f: Frame, pad: seq<Byte>)
    ensures var g := Forwarded(f, pad);
      && RelayAt(g) == 0 && Ours(g)
      && Delivered(g).tags == (if OldRelay(f) == [] then [] else [Elem(RELAY, OldRelay(f))]) + WithoutRelay(f).tags
  {
    var g := Forwarded(f, pad);
    assert g.tags[0] == Stamped(f);
    RelayRoundTrip(f, pad, g);
  }

  /** Nothing but the relay tag is touched on the way up. */
  lemma OthersKept(f: Frame, pad: seq<Byte>)
    ensures var k := RelayAt(f); var g := Forwarded(f, pad);
      && g.tags[1..] == f.tags[..k] + (if k < |f.tags| then f.tags[k + 1..] else [])
      && g.head == f.head
  {
  }

  lemma PayloadOf(f: Frame, k: nat)
    requires k < |f.tags|
    ensures |f.(tags := Without(f.tags, k)).Payload()| == |f.Payload()| - 4 - |f.tags[k].data|
  {
    Around(PppoeTag, f.tags, k);
    EncWithout(PppoeTag, f.tags, k);
  }

  lemma WithoutRelayIsValid(f: Frame)
    requires f.Valid()
    ensures WithoutRelay(f).Valid()
    ensures |WithoutRelay(f).Bytes()| == |f.Bytes()| - if RelayAt(f) < |f.tags| then 4 + |OldRelay(f)| else 0
  {
    if RelayAt(f) < |f.tags| { PayloadOf(f, RelayAt(f)); }
  }

  // ---- the same on bytes --------------------------------------------------------------

  /** The length of the tag being added as line 114 reads it: tag_len is in network order. */
  function HostLen(bigEndian: bool, n: nat): nat {
    if bigEndian then Be16(ToBe16(n), 0) else Le16(ToBe16(n), 0)
  }

  /** Only a big-endian host reads the right number. */
  lemma LengthReadRightOnlyOnBigEndian(bigEndian: bool, n: nat)
    requires 0 < n < 256
    ensures HostLen(bigEndian, n) == n <==> bigEndian
    ensures !bigEndian ==> HostLen(bigEndian, n) == 256 * n
  {
  }

  function Cut(s: seq<Byte>, at: nat, n: nat): seq<Byte>
    requires at + n <= |s|
  {
    s[..at] + s[at + n..]
  }

  /** The tags of the frame tile its payload. */
  predicate WellFormed(s: seq<Byte>) {
    |s| >= TAGS && Walkable(PppoeTag, s, TAGS, TAGS + Be16(s, LENGTH))
  }

  function RelayPos(s: seq<Byte>): (r: int)
    requires WellFormed(s)
    ensures r == -1 || (TAGS <= r && r + 4 <= |s| && r + 4 + Be16(s, r + 2) <= TAGS + Be16(s, LENGTH) <= |s|)
  {
    Scan(PppoeTag, s, TAGS, TAGS + Be16(s, LENGTH), RELAY)
  }

  function PayloadAt(s: seq<Byte>, r: nat): seq<Byte>
    requires r + 4 <= |s| && r + 4 + Be16(s, r + 2) <= |s|
  {
    s[r + 4..r + 4 + Be16(s, r + 2)]
  }

  function RelayPayload(s: seq<Byte>): seq<Byte>
    requires WellFormed(s)
  {
    if RelayPos(s) == -1 then [] else PayloadAt(s, RelayPos(s))
  }

  /** n payload bytes cut out, and the length field shortened. */
  function Shortened(s: seq<Byte>, at: nat, n: nat): seq<Byte>
    requires TAGS <= at && at + n <= |s| && n <= Be16(s, LENGTH)
  {
    Patched(Cut(s, at, n), LENGTH, ToBe16(Be16(s, LENGTH) - n))
  }

  function Taken(s: seq<Byte>): seq<Byte>
    requires WellFormed(s)
  {
    var r := RelayPos(s);
    if r == -1 then s else Shortened(s, r, 4 + Be16(s, r + 2))
  }

  function RelayTag(src: seq<Byte>, payload: seq<Byte>): (r: seq<Byte>)
    requires |src| == 6
    ensures |r| == 4 + STAMP + |payload|
  {
    Header(PppoeTag, RELAY, STAMP + |payload|) + (MAGIC + src + payload)
  }

  function StampedTag(s: seq<Byte>): seq<Byte>
    requires WellFormed(s)
  {
    RelayTag(s[6..12], RelayPayload(s))
  }

  /** `tag` put in front of the tags; `room` is the piece of tailroom used for it. */
  function Prepended(s: seq<Byte>, room: seq<Byte>, tag: seq<Byte>): seq<Byte>
    requires |s| >= TAGS && |s| >= TAGS + Be16(s, LENGTH) && |room| == |tag|
  {
    var n, t := |tag|, Be16(s, LENGTH);
    Patched(Patched(Moved(s + room, TAGS + n, TAGS, t), LENGTH, ToBe16(t + n)), TAGS, tag)
  }

  /** The bytes that are copied: from the start of the tag on, as many as its length field,
      read in the host's order, says. */
  function Copied(bigEndian: bool, tag: seq<Byte>, behind: seq<Byte>): (r: seq<Byte>)
    requires |tag| >= 4 && |behind| >= 0x1_0000
    ensures |r| == 4 + if bigEndian then Be16(tag, 2) else Le16(tag, 2)
  {
    (tag + behind)[..4 + if bigEndian then Be16(tag, 2) else Le16(tag, 2)]
  }

  lemma TagReads(src: seq<Byte>, payload: seq<Byte>)
    requires |src| == 6 && STAMP + |payload| < 0x1_0000
    ensures Be16(RelayTag(src, payload), 2) == STAMP + |payload| == HostLen(true, STAMP + |payload|)
    ensures Le16(RelayTag(src, payload), 2) == HostLen(false, STAMP + |payload|)
  {
    var n := STAMP + |payload|;
    var l, h := ToBe16(n), Header(PppoeTag, RELAY, n);
    assert h[2] == l[0] && h[3] == l[1];
  }

  lemma TakenKeeps(s: seq<Byte>)
    requires WellFormed(s)
    ensures var t := Taken(s);
      && |t| >= TAGS && |t| >= TAGS + Be16(t, LENGTH) && t[6..12] == s[6..12]
      && |t| == |s| - if RelayPos(s) == -1 then 0 else 4 + |RelayPayload(s)|
  {
    var r := RelayPos(s);
    if r != -1 { ShortenedKeeps(s, r, 4 + Be16(s, r + 2)); }
  }

  lemma ShortenedKeeps(s: seq<Byte>, at: nat, n: nat)
    requires TAGS <= at && at + n <= |s| && n <= Be16(s, LENGTH)
    ensures var t := Shortened(s, at, n);
      |t| == |s| - n && t[..LENGTH] == s[..LENGTH] && t[6..12] == s[6..12] && Be16(t, LENGTH) == Be16(s, LENGTH) - n
  {
    var c, l := Cut(s, at, n), ToBe16(Be16(s, LENGTH) - n);
    var t := Shortened(s, at, n);
    assert c[..LENGTH] == s[..LENGTH];
    assert t[LENGTH] == l[0] && t[LENGTH + 1] == l[1];
    assert t[..LENGTH] == c[..LENGTH];
    assert t[6..12] == t[..LENGTH][6..12] && s[6..12] == s[..LENGTH][6..12];
  }

  lemma AddressedKeeps(s: seq<Byte>, mac: seq<Byte>, r: nat)
    requires |mac| == 6 && TAGS <= r && r + 4 <= |s|
    ensures var t := Patched(s, 0, mac); |t| == |s| && Be16(t, LENGTH) == Be16(s, LENGTH)
  {
  }

  /** The PADO and PADS handler accepts the frame. */
  predicate Echoed(s: seq<Byte>)
    requires WellFormed(s)
  {
    var r := RelayPos(s);
    r != -1 && Be16(s, r + 2) >= STAMP && s[r + 4..r + 6] == MAGIC
  }

  /** The stamp in the relay tag at r, with payload length n, taken out and used as the
      destination. */
  function UnstampedAt(s: seq<Byte>, r: nat, n: nat): seq<Byte>
    requires TAGS <= r && STAMP <= n && r + 4 + n <= |s| && 4 + n <= Be16(s, LENGTH)
  {
    AddressedKeeps(s, s[r + 6..r + 12], r);
    var t := Patched(s, 0, s[r + 6..r + 12]);
    if n > STAMP then Patched(Shortened(t, r + 4, STAMP), r + 2, ToBe16(n - STAMP))
    else Shortened(t, r, 4 + STAMP)
  }

  lemma UnstampedSteps(s: seq<Byte>, r: nat, n: nat, t: seq<Byte>)
    requires TAGS <= r && STAMP <= n && r + 4 + n <= |s| && 4 + n <= Be16(s, LENGTH)
    requires t == Patched(s, 0, s[r + 6..r + 12])
    ensures |t| == |s| && Be16(t, LENGTH) == Be16(s, LENGTH)
    ensures n > STAMP ==> UnstampedAt(s, r, n) == Patched(Shortened(t, r + 4, STAMP), r + 2, ToBe16(n - STAMP))
    ensures n == STAMP ==> UnstampedAt(s, r, n) == Shortened(t, r, 4 + STAMP)
  {
    AddressedKeeps(s, s[r + 6..r + 12], r);
  }

  function Unstamped(s: seq<Byte>): seq<Byte>
    requires WellFormed(s) && Echoed(s)
  {
    UnstampedAt(s, RelayPos(s), Be16(s, RelayPos(s) + 2))
  }

  /** Cutting `b` out of the payload, and the new length written. */
  lemma CutBytes(h: Head, a: seq<Byte>, b: seq<Byte>, c: seq<Byte>, p: seq<Byte>, at: nat, n: nat, t: nat)
    requires at == TAGS + |a| && n == |b| && t == |a + c|
    ensures Patched(Cut(Layout(h, a + b + c, p), at, n), LENGTH, ToBe16(t)) == Layout(h, a + c, p)
  {
    var s, l := Layout(h, a + b + c, p), ToBe16(|a + b + c|);
    assert s == (h + l + a) + b + (c + p);
    assert Cut(s, at, n) == h + l + (a + c + p);
  }

  /** Writing over the length field of a tag. */
  lemma RewriteBytes(h: Head, a: seq<Byte>, l: seq<Byte>, l': seq<Byte>, c: seq<Byte>, p: seq<Byte>, at: nat)
    requires |l| == |l'| == 2 && at == TAGS + |a|
    ensures Patched(Layout(h, a + l + c, p), at, l') == Layout(h, a + l' + c, p)
  {
    var n := ToBe16(|a + l + c|);
    assert Layout(h, a + l + c, p) == (h + n + a) + l + (c + p);
    assert Layout(h, a + l' + c, p) == (h + n + a) + l' + (c + p);
  }

  /** Cutting tag k out and shortening the length field. */
  lemma CutTag(f: Frame, k: nat, s: seq<Byte>, at: nat, n: nat, len: nat)
    requires k < |f.tags| && at == TAGS + Pos(PppoeTag, f.tags, k) && n == 4 + |f.tags[k].data|
    requires s == f.Bytes() && len == |f.Payload()| - n
    ensures at + n <= |s|
    ensures Patched(Cut(s, at, n), LENGTH, ToBe16(len)) == f.(tags := Without(f.tags, k)).Bytes()
  {
    Around(PppoeTag, f.tags, k);
    EncWithout(PppoeTag, f.tags, k);
    var a, b, c := EncTo(PppoeTag, f.tags, k), Enc(PppoeTag, f.tags[k]), EncAll(PppoeTag, f.tags[k + 1..]);
    CutBytes(f.head, a, b, c, f.pad, at, n, len);
  }

  /** Cutting the stamp out of tag k, which then still has a payload. */
  lemma CutStamp(f: Frame, k: nat, d: seq<Byte>, s: seq<Byte>, at: nat, len: nat, m: nat)
    requires k < |f.tags| && |f.tags[k].data| > STAMP && d == f.tags[k].data[STAMP..] && m == |d|
    requires at == TAGS + Pos(PppoeTag, f.tags, k) && s == f.Bytes() && len == |f.Payload()| - STAMP
    ensures at + 4 + STAMP <= |s|
    ensures Patched(Patched(Cut(s, at + 4, STAMP), LENGTH, ToBe16(len)), at + 2, ToBe16(m))
         == f.(tags := f.tags[k := Elem(f.tags[k].id, d)]).Bytes()
  {
    var e := f.tags[k];
    Around(PppoeTag, f.tags, k);
    EncReplaced(PppoeTag, f.tags, k, Elem(e.id, d));
    var a, c := EncTo(PppoeTag, f.tags, k), EncAll(PppoeTag, f.tags[k + 1..]);
    StampBytes(f.head, a, ToBe16(e.id), e.data, d, c, f.pad, at, len);
  }

  lemma StampBytes(h: Head, a: seq<Byte>, t: seq<Byte>, was: seq<Byte>, d: seq<Byte>, c: seq<Byte>, p: seq<Byte>,
                   at: nat, len: nat)
    requires |t| == 2 && |was| > STAMP && d == was[STAMP..] && at == TAGS + |a|
    requires len == |a + (t + ToBe16(|d|) + d) + c|
    ensures var x, y := a + (t + ToBe16(|was|) + was) + c, a + (t + ToBe16(|d|) + d) + c;
      Patched(Patched(Cut(Layout(h, x, p), at + 4, STAMP), LENGTH, ToBe16(len)), at + 2, ToBe16(|d|)) == Layout(h, y, p)
  {
    var l, l' := ToBe16(|was|), ToBe16(|d|);
    assert was == was[..STAMP] + d;
    assert a + (t + l + was) + c == (a + t + l) + was[..STAMP] + (d + c);
    CutBytes(h, a + t + l, was[..STAMP], d + c, p, at + 4, STAMP, len);
    assert (a + t + l) + (d + c) == (a + t) + l + (d + c);
    RewriteBytes(h, a + t, l, l', d + c, p, at + 2);
    assert a + (t + l' + d) + c == (a + t) + l' + (d + c);
  }

  lemma RoomBytes(h: Head, p: seq<Byte>, pad: seq<Byte>, room: seq<Byte>, e: seq<Byte>, n: nat, t: nat)
    requires |room| == |e| == n && |p| == t
    ensures Patched(Patched(Moved(Layout(h, p, pad) + room, TAGS + n, TAGS, t), LENGTH, ToBe16(t + n)), TAGS, e)
         == Layout(h, e + p, (pad + room)[n..])
  {
    var q := pad + room;
    var l0, hole := ToBe16(t), (p + q)[..n];
    assert Layout(h, p, pad) + room == (h + l0) + p + q;
    MovedUp(h + l0, p, q, n);
    HoleFilled(h, l0, hole, p, q[n..], e, n, t);
  }

  lemma HoleFilled(h: Head, l0: seq<Byte>, hole: seq<Byte>, p: seq<Byte>, q: seq<Byte>, e: seq<Byte>, n: nat, t: nat)
    requires |hole| == |e| == n && |p| == t && |l0| == 2
    ensures Patched(Patched((h + l0) + hole + p + q, LENGTH, ToBe16(t + n)), TAGS, e) == Layout(h, e + p, q)
  {
    var l, rest := ToBe16(t + n), p + q;
    assert h + l0 + hole + p + q == h + l0 + hole + rest;
    PatchTwice(h, l0, l, hole, e, rest);
    assert |e + p| == t + n;
    assert Layout(h, e + p, q) == h + l + e + rest;
  }

  lemma MovedUp(a: seq<Byte>, p: seq<Byte>, q: seq<Byte>, n: nat)
    requires n <= |q|
    ensures Moved(a + p + q, |a| + n, |a|, |p|) == a + (p + q)[..n] + p + q[n..]
  {
    var hole, under := (p + q)[..n], (p + q)[n..n + |p|];
    assert p + q == hole + under + q[n..];
    assert a + p + q == (a + hole) + under + q[n..];
    assert (a + p + q)[|a|..|a| + |p|] == p;
    PatchMiddle(a + hole, under, q[n..], p);
  }

  lemma PatchMiddle(a: seq<Byte>, b: seq<Byte>, c: seq<Byte>, b': seq<Byte>)
    requires |b| == |b'|
    ensures Patched(a + b + c, |a|, b') == a + b' + c
  {
    assert (a + b + c)[|a| + |b'|..] == c;
  }

  lemma PatchTwice(a: seq<Byte>, b: seq<Byte>, b': seq<Byte>, c: seq<Byte>, c': seq<Byte>, d: seq<Byte>)
    requires |b| == |b'| && |c| == |c'|
    ensures Patched(Patched(a + b + c + d, |a|, b'), |a| + |b|, c') == a + b' + c' + d
  {
    PatchMiddle(a, b, c + d, b');
    assert a + b + c + d == a + b + (c + d);
    assert a + b' + (c + d) == (a + b') + c + d;
    PatchMiddle(a + b', c, d, c');
  }

  /** Rewriting the destination. */
  lemma Addressed(f: Frame, mac: seq<Byte>)
    requires |mac| == 6
    ensures Patched(f.Bytes(), 0, mac) == f.To(mac).Bytes()
  {
    assert f.Bytes() == f.head[..6] + f.head[6..] + ToBe16(|f.Payload()|) + f.Payload() + f.pad;
  }

  /** What the handlers read in the header. */
  lemma HeadReads(f: Frame, s: seq<Byte>)
    requires f.Valid() && s == f.Bytes()
    ensures |s| == TAGS + |f.Payload()| + |f.pad| && Be16(s, LENGTH) == |f.Payload()|
    ensures s[..LENGTH] == f.head && s[6..12] == f.Src() && s[CODE] == f.head[CODE]
    ensures Holds(PppoeTag, s, TAGS, f.tags)
  {
    var l := ToBe16(|f.Payload()|);
    assert s[LENGTH] == l[0] && s[LENGTH + 1] == l[1];
    assert s[TAGS..TAGS + |f.Payload()|] == f.Payload();
    assert s[CODE] == s[..LENGTH][CODE];
  }

  /** The handlers' walk finds the first relay tag of the frame. */
  lemma RelayReads(f: Frame, s: seq<Byte>)
    requires f.Valid() && s == f.Bytes()
    ensures WellFormed(s) && Be16(s, LENGTH) == |f.Payload()|
    ensures RelayPos(s) == if RelayAt(f) == |f.tags| then -1 else TAGS + Pos(PppoeTag, f.tags, RelayAt(f))
    ensures RelayPayload(s) == OldRelay(f)
    ensures RelayAt(f) < |f.tags| ==> Be16(s, RelayPos(s) + 2) == |f.tags[RelayAt(f)].data|
  {
    HeadReads(f, s);
    WalkFinds(s, f.tags);
    if RelayAt(f) < |f.tags| { ReadTag(s, f.tags, RelayAt(f), RelayPos(s)); }
  }

  lemma WalkFinds(s: seq<Byte>, tags: seq<Elem>)
    requires |s| >= TAGS && Holds(PppoeTag, s, TAGS, tags) && Be16(s, LENGTH) == Size(PppoeTag, tags)
    ensures WellFormed(s)
    ensures var k := First(tags, OfType(RELAY), 0);
      RelayPos(s) == if k == |tags| then -1 else TAGS + Pos(PppoeTag, tags, k)
  {
    var end := TAGS + Be16(s, LENGTH);
    HoldsWalks(PppoeTag, s, TAGS, tags, 0, TAGS, end);
    ScanFinds(PppoeTag, s, TAGS, tags, RELAY, 0, TAGS, end);
  }

  lemma ReadTag(s: seq<Byte>, tags: seq<Elem>, k: nat, r: nat)
    requires |s| >= TAGS && Holds(PppoeTag, s, TAGS, tags) && k < |tags| && r == TAGS + Pos(PppoeTag, tags, k)
    ensures r + 4 <= |s| && Be16(s, r + 2) == |tags[k].data| && r + 4 + Be16(s, r + 2) <= |s|
    ensures PayloadAt(s, r) == tags[k].data
  {
    var i := ReadAt(PppoeTag, s, TAGS, tags, k);
    TagAt(s, r, tags[k].data);
  }

  lemma TagAt(s: seq<Byte>, r: nat, d: seq<Byte>)
    requires r + 4 + |d| <= |s| && LenAt(PppoeTag, s, r) == |d|
    requires s[r + HeaderLen(PppoeTag)..r + HeaderLen(PppoeTag) + |d|] == d
    ensures Be16(s, r + 2) == |d| && PayloadAt(s, r) == d
  {
  }

  /** The bytes of the upstream handler are the frame without its relay tag ... */
  lemma TakenIs(f: Frame)
    requires f.Valid()
    ensures WellFormed(f.Bytes()) && Taken(f.Bytes()) == WithoutRelay(f).Bytes()
  {
    var s := f.Bytes();
    RelayReads(f, s);
    if RelayAt(f) < |f.tags| { ShortenedIs(f, RelayAt(f), s, RelayPos(s), 4 + Be16(s, RelayPos(s) + 2)); }
  }

  lemma ShortenedIs(f: Frame, k: nat, s: seq<Byte>, r: nat, n: nat)
    requires s == f.Bytes() && k < |f.tags| && TAGS <= r == TAGS + Pos(PppoeTag, f.tags, k)
    requires n == 4 + |f.tags[k].data| && r + n <= |s| && n <= Be16(s, LENGTH) == |f.Payload()|
    ensures Shortened(s, r, n) == f.(tags := Without(f.tags, k)).Bytes()
  {
    Around(PppoeTag, f.tags, k);
    EncWithout(PppoeTag, f.tags, k);
    ShortenedBytes(f.head, EncTo(PppoeTag, f.tags, k), Enc(PppoeTag, f.tags[k]), EncAll(PppoeTag, f.tags[k + 1..]),
                   f.pad, s, r, n);
  }

  lemma ShortenedBytes(h: Head, a: seq<Byte>, b: seq<Byte>, c: seq<Byte>, p: seq<Byte>, s: seq<Byte>, at: nat, n: nat)
    requires s == Layout(h, a + b + c, p) && at == TAGS + |a| && n == |b|
    requires at + n <= |s| && n <= Be16(s, LENGTH) == |a + b + c|
    ensures Shortened(s, at, n) == Layout(h, a + c, p)
  {
    CutBytes(h, a, b, c, p, at, n, Be16(s, LENGTH) - n);
  }

  /** ... the tag it adds is the stamped one ... */
  lemma StampedTagIs(f: Frame)
    requires f.Valid()
    ensures WellFormed(f.Bytes()) && StampedTag(f.Bytes()) == Enc(PppoeTag, Stamped(f))
  {
    RelayReads(f, f.Bytes());
    HeadReads(f, f.Bytes());
  }

  /** ... and adding it yields the forwarded frame. What lay behind the payload and in the new
      room slides under the end of the frame. */
  lemma UpstreamIs(f: Frame, room: seq<Byte>)
    requires f.Valid() && |room| == 4 + STAMP + |OldRelay(f)|
    ensures var s, g := f.Bytes(), WithoutRelay(f);
      && WellFormed(s) && |StampedTag(s)| == |room|
      && |Taken(s)| >= TAGS && |Taken(s)| >= TAGS + Be16(Taken(s), LENGTH)
      && Prepended(Taken(s), room, StampedTag(s)) == Forwarded(f, (g.pad + room)[|room|..]).Bytes()
  {
    TakenIs(f);
    StampedTagIs(f);
    WithoutRelayIsValid(f);
    PrependedIs(WithoutRelay(f), room, Stamped(f));
  }

  lemma PrependedIs(f: Frame, room: seq<Byte>, e: Elem)
    requires f.Valid() && |room| == 4 + |e.data|
    ensures |f.Bytes()| >= TAGS && |f.Bytes()| >= TAGS + Be16(f.Bytes(), LENGTH)
    ensures Prepended(f.Bytes(), room, Enc(PppoeTag, e))
         == Frame(f.head, [e] + f.tags, (f.pad + room)[|room|..]).Bytes()
  {
    HeadReads(f, f.Bytes());
    EncAppend(PppoeTag, [e], f.tags);
    EncOne(PppoeTag, e);
    PrependedBytes(f.head, f.Payload(), f.pad, room, Enc(PppoeTag, e), f.Bytes());
  }

  lemma PrependedBytes(h: Head, p: seq<Byte>, pad: seq<Byte>, room: seq<Byte>, e: seq<Byte>, s: seq<Byte>)
    requires |room| == |e| && s == Layout(h, p, pad) && |s| >= TAGS + |p| && Be16(s, LENGTH) == |p|
    ensures Prepended(s, room, e) == Layout(h, e + p, (pad + room)[|room|..])
  {
    RoomBytes(h, p, pad, room, e, |e|, Be16(s, LENGTH));
  }

  /** So the driver sends the forwarded frame up on a big-endian host, and never on another. */
  lemma ForwardsOnlyOnBigEndian(f: Frame, bigEndian: bool, behind: seq<Byte>, copy: seq<Byte>, room: seq<Byte>,
                                pad: seq<Byte>)
    requires f.Valid() && |OldRelay(f)| + 4 + STAMP <= TAG_BUF && |behind| >= 0x1_0000 && WellFormed(f.Bytes())
    requires copy == Copied(bigEndian, StampedTag(f.Bytes()), behind) && |room| == |copy|
    ensures var t := Taken(f.Bytes()); |t| >= TAGS && |t| >= TAGS + Be16(t, LENGTH)
    ensures bigEndian ==> var behindFrame := WithoutRelay(f).pad + room;
      Prepended(Taken(f.Bytes()), room, copy) == Forwarded(f, behindFrame[|room|..]).Bytes()
    ensures !bigEndian ==> Prepended(Taken(f.Bytes()), room, copy) != Forwarded(f, pad).Bytes()
  {
    var s, n := f.Bytes(), STAMP + |OldRelay(f)|;
    CopiedLength(f, bigEndian, StampedTag(s), behind, n);
    var t := TakenLength(f, s);
    if bigEndian {
      UpstreamIs(f, room);
    } else {
      NotForwarded(f, Taken(s), t, n, room, copy, pad);
    }
  }

  lemma NotForwarded(f: Frame, s: seq<Byte>, t: nat, n: nat, room: seq<Byte>, copy: seq<Byte>, pad: seq<Byte>)
    requires t == |WithoutRelay(f).Payload()| && n == STAMP + |OldRelay(f)| < 256
    requires |s| >= TAGS + t && Be16(s, LENGTH) == t && |room| == |copy| == 4 + 256 * n
    ensures Prepended(s, room, copy) != Forwarded(f, pad).Bytes()
  {
    PrependedLength(s, room, copy);
    ForwardedLength(f, pad, t, n);
    LengthsDiffer(t + 4, n);
  }

  lemma CopiedLength(f: Frame, bigEndian: bool, tag: seq<Byte>, behind: seq<Byte>, n: nat)
    requires f.Valid() && WellFormed(f.Bytes()) && tag == StampedTag(f.Bytes())
    requires |behind| >= 0x1_0000 && n == STAMP + |OldRelay(f)| < 256
    ensures |Copied(bigEndian, tag, behind)| == 4 + if bigEndian then n else 256 * n
    ensures bigEndian ==> Copied(bigEndian, tag, behind) == tag
  {
    var s := f.Bytes();
    RelayReads(f, s);
    TagReads(s[6..12], RelayPayload(s));
    LengthReadRightOnlyOnBigEndian(bigEndian, n);
    assert (tag + behind)[..|tag|] == tag;
  }

  lemma TakenLength(f: Frame, s: seq<Byte>) returns (t: nat)
    requires f.Valid() && s == f.Bytes() && WellFormed(s)
    ensures t == |WithoutRelay(f).Payload()| && |Taken(s)| >= TAGS + t && Be16(Taken(s), LENGTH) == t
  {
    t := |WithoutRelay(f).Payload()|;
    TakenIs(f);
    WithoutRelayIsValid(f);
    HeadReads(WithoutRelay(f), Taken(s));
  }

  lemma PrependedLength(s: seq<Byte>, room: seq<Byte>, tag: seq<Byte>)
    requires |s| >= TAGS && |s| >= TAGS + Be16(s, LENGTH) && |room| == |tag|
    ensures Be16(Prepended(s, room, tag), LENGTH) == (Be16(s, LENGTH) + |tag|) % 0x1_0000
  {
    var n, t := |tag|, Be16(s, LENGTH);
    var l := ToBe16(t + n);
    var w := Patched(Moved(s + room, TAGS + n, TAGS, t), LENGTH, l);
    assert w[LENGTH] == l[0] && w[LENGTH + 1] == l[1];
    assert Patched(w, TAGS, tag)[..TAGS] == w[..TAGS];
    Be16Of(t + n);
  }

  lemma Be16Of(n: nat)
    ensures Be16(ToBe16(n), 0) == n % 0x1_0000
  {
  }

  lemma ForwardedLength(f: Frame, pad: seq<Byte>, t: nat, n: nat)
    requires t == |WithoutRelay(f).Payload()| && n == STAMP + |OldRelay(f)|
    ensures |Forwarded(f, pad).Bytes()| >= TAGS && Be16(Forwarded(f, pad).Bytes(), LENGTH) == (t + 4 + n) % 0x1_0000
  {
    var g := Forwarded(f, pad);
    EncAppend(PppoeTag, [Stamped(f)], WithoutRelay(f).tags);
    EncOne(PppoeTag, Stamped(f));
    var l := ToBe16(|g.Payload()|);
    assert g.Bytes()[LENGTH] == l[0] && g.Bytes()[LENGTH + 1] == l[1];
    Be16Of(t + 4 + n);
  }

  lemma LengthsDiffer(t: nat, n: nat)
    requires 0 < n < 256
    ensures (t + 256 * n) % 0x1_0000 != (t + n) % 0x1_0000
  {
  }

  /** The downstream handler accepts exactly the frames with our stamp, and what it leaves is
      the delivered frame. */
  lemma DownstreamIs(f: Frame)
    requires f.Valid()
    ensures WellFormed(f.Bytes()) && (Echoed(f.Bytes()) <==> Ours(f))
    ensures Ours(f) ==> Unstamped(f.Bytes()) == Delivered(f).Bytes()
  {
    var s, k := f.Bytes(), RelayAt(f);
    RelayReads(f, s);
    if k < |f.tags| && |f.tags[k].data| >= STAMP {
      StampReads(s, RelayPos(s), f.tags[k].data);
      if Ours(f) { UnstampedIs(f, s, RelayPos(s), f.tags[k].data); }
    }
  }

  lemma StampReads(s: seq<Byte>, r: nat, d: seq<Byte>)
    requires r + 4 + |d| <= |s| && |d| >= STAMP && s[r + 4..r + 4 + |d|] == d
    ensures s[r + 4..r + 6] == d[..2] && s[r + 6..r + 12] == d[2..STAMP]
  {
    var w := s[r + 4..r + 4 + |d|];
    assert w[..2] == s[r + 4..r + 6];
    forall j | 0 <= j < 6 ensures d[2..STAMP][j] == s[r + 6..r + 12][j] {
      assert w[2 + j] == s[r + 4 + (2 + j)];
    }
  }

  lemma UnstampedIs(f: Frame, s: seq<Byte>, r: nat, d: seq<Byte>)
    requires f.Valid() && s == f.Bytes() && Ours(f) && d == f.tags[RelayAt(f)].data
    requires r == TAGS + Pos(PppoeTag, f.tags, RelayAt(f)) && r + 4 + |d| <= |s| && 4 + |d| <= Be16(s, LENGTH)
    requires s[r + 6..r + 12] == d[2..STAMP]
    ensures UnstampedAt(s, r, |d|) == Delivered(f).Bytes()
  {
    var g, k := f.To(d[2..STAMP]), RelayAt(f);
    Addressed(f, d[2..STAMP]);
    if |d| > STAMP {
      StampCut(g, k, d[STAMP..], s, g.Bytes(), r, |d|, Delivered(f));
    } else {
      TagCut(g, k, s, g.Bytes(), r, |d|, Delivered(f));
    }
  }

  lemma StampCut(g: Frame, k: nat, d: seq<Byte>, s: seq<Byte>, t: seq<Byte>, r: nat, n: nat, q: Frame)
    requires g.Valid() && t == g.Bytes() && k < |g.tags| && STAMP < n == |g.tags[k].data|
    requires TAGS <= r == TAGS + Pos(PppoeTag, g.tags, k) && r + 4 + n <= |s| && 4 + n <= Be16(s, LENGTH)
    requires t == Patched(s, 0, s[r + 6..r + 12])
    requires d == g.tags[k].data[STAMP..] && q == g.(tags := g.tags[k := Elem(g.tags[k].id, d)])
    ensures UnstampedAt(s, r, n) == q.Bytes()
  {
    HeadReads(g, t);
    var len, m := Be16(t, LENGTH) - STAMP, n - STAMP;
    CutStamp(g, k, d, t, r, len, m);
    UnstampedLong(s, r, n, t, len, m);
  }

  lemma UnstampedLong(s: seq<Byte>, r: nat, n: nat, t: seq<Byte>, len: int, m: nat)
    requires TAGS <= r && STAMP < n && r + 4 + n <= |s| && 4 + n <= Be16(s, LENGTH)
    requires t == Patched(s, 0, s[r + 6..r + 12]) && len == Be16(t, LENGTH) - STAMP && m == n - STAMP
    ensures len >= 0 && r + 4 + STAMP <= |t|
    ensures UnstampedAt(s, r, n) == Patched(Patched(Cut(t, r + 4, STAMP), LENGTH, ToBe16(len)), r + 2, ToBe16(m))
  {
    AddressedKeeps(s, s[r + 6..r + 12], r);
  }

  lemma TagCut(g: Frame, k: nat, s: seq<Byte>, t: seq<Byte>, r: nat, n: nat, q: Frame)
    requires g.Valid() && t == g.Bytes() && k < |g.tags| && STAMP == n == |g.tags[k].data|
    requires TAGS <= r == TAGS + Pos(PppoeTag, g.tags, k) && r + 4 + n <= |s| && 4 + n <= Be16(s, LENGTH)
    requires t == Patched(s, 0, s[r + 6..r + 12]) && q == g.(tags := Without(g.tags, k))
    ensures UnstampedAt(s, r, n) == q.Bytes()
  {
    HeadReads(g, t);
    CutTag(g, k, t, r, 4 + STAMP, Be16(t, LENGTH) - (4 + STAMP));
  }

  lemma MovedPrefix(w: seq<Byte>, len: nat, dst: nat, src: nat, n: nat)
    requires src + n <= len <= |w| && dst + n <= len
    ensures Moved(w, dst, src, n)[..len] == Moved(w[..len], dst, src, n)
  {
    assert w[..len][src..src + n] == w[src..src + n];
  }

  lemma CutPrefix(w: seq<Byte>, len: nat, src: nat, n: nat)
    requires src + n <= len <= |w|
    ensures Moved(w, src, src + n, len - (src + n))[..len - n] == Cut(w[..len], src, n)
    ensures src + n == len ==> w[..len - n] == Cut(w[..len], src, n)
  {
    assert w[..len][src + n..] == w[src + n..len];
  }

  // ---- the code -----------------------------------------------------------------------

  /** A socket buffer: `len` bytes of frame, then tailroom. */
  class Skb {
    const data: array<Byte>
    var len: nat

    ghost predicate Valid()
      reads this
    {
      len <= data.Length
    }

    ghost function Contents(): seq<Byte>
      requires Valid()
      reads this, data
    {
      data[..len]
    }

    constructor (data: array<Byte>, len: nat)
      requires len <= data.Length
      ensures Valid() && this.data == data && this.len == len
    {
      this.data := data;
      this.len := len;
    }

    method Get16(i: nat) returns (v: nat)
      requires Valid() && i + 2 <= len
      ensures v == Be16(Contents(), i)
    {
      v := data[i] as int * 256 + data[i + 1];
    }

    method Read(from: nat, to: nat) returns (bytes: seq<Byte>)
      requires Valid() && from <= to <= len
      ensures bytes == Contents()[from..to]
    {
      bytes := data[from..to];
    }

    method Write(at: nat, bytes: seq<Byte>)
      requires Valid() && at + |bytes| <= len
      modifies data
      ensures Contents() == Patched(old(Contents()), at, bytes)
    {
      Store(data, at, bytes);
    }

    method Shift(dst: nat, src: nat, n: nat)
      requires Valid() && src + n <= len && dst + n <= len
      modifies data
      ensures Contents() == Moved(old(Contents()), dst, src, n)
    {
      MovedPrefix(data[..], len, dst, src, n);
      Move(data, dst, src, n);
    }

    /** __nat25_find_pppoe_tag. -1 stands for the null pointer. */
    method FindTag(t: nat) returns (pos: int)
      requires Valid() && WellFormed(Contents())
      ensures pos == Scan(PppoeTag, Contents(), TAGS, TAGS + Be16(Contents(), LENGTH), t)
    {
      var length := Get16(LENGTH);
      var cur: nat := TAGS;
      ghost var s, end := Contents(), TAGS + length;
      while cur - TAGS < length
        invariant Walkable(PppoeTag, s, cur, end)
        invariant Scan(PppoeTag, s, TAGS, end, t) == Scan(PppoeTag, s, cur, end, t)
        decreases end - cur
      {
        var tagType := Get16(cur);
        var tagLen := Get16(cur + 2);
        var next := cur + 4 + tagLen;
        ScanStep(PppoeTag, s, cur, next, end, t);
        if tagType == t { return cur; }
        cur := next;
      }
      return -1;
    }

    /** skb_pull_and_merge: cuts n bytes out of the frame, if they lie in it. */
    method PullAndMerge(src: nat, n: nat) returns (ret: int)
      requires Valid()
      modifies this, data
      ensures Valid() && (ret == 0 <==> src + n <= old(len)) && (ret == 0 || ret == -1)
      ensures ret == 0 ==> len == old(len) - n && Contents() == Cut(old(Contents()), src, n)
      ensures ret != 0 ==> len == old(len) && data[..] == old(data[..])
    {
      if src + n > len || len < n { return -1; }
      CutPrefix(data[..], len, src, n);
      var tailLen := len - (src + n);
      if tailLen > 0 { Move(data, src, src + n, tailLen); }
      len := len - n;
      return 0;
    }

    /** Cuts n payload bytes out and shortens the length field. */
    method Shorten(at: nat, n: nat)
      requires Valid() && TAGS <= at && at + n <= len && n <= Be16(Contents(), LENGTH)
      modifies this, data
      ensures Valid() && len == old(len) - n && Contents() == Shortened(old(Contents()), at, n)
    {
      ghost var s := Contents();
      var cut := PullAndMerge(at, n);
      assert Be16(Contents(), LENGTH) == Be16(s, LENGTH);
      var length := Get16(LENGTH);
      Write(LENGTH, ToBe16(length - n));
    }

    /** __nat25_add_pppoe_tag. `behind` is what follows the tag in memory. */
    method AddTag(bigEndian: bool, tag: seq<Byte>, behind: seq<Byte>) returns (ret: int, ghost room: seq<Byte>)
      requires Valid() && len >= TAGS && len >= TAGS + Be16(Contents(), LENGTH)
      requires |tag| >= 4 && |behind| >= 0x1_0000
      modifies this, data
      ensures Valid() && (ret == -1 || ret == |Copied(bigEndian, tag, behind)|)
      ensures ret != -1 <==> |Copied(bigEndian, tag, behind)| <= data.Length - old(len)
      ensures ret == -1 ==> Contents() == old(Contents())
      ensures ret != -1 ==> |room| == |Copied(bigEndian, tag, behind)|
                            && Contents() == Prepended(old(Contents()), room, Copied(bigEndian, tag, behind))
    {
      var dataLen := (if bigEndian then Be16(tag, 2) else Le16(tag, 2)) + 4;
      if data.Length - len < dataLen { return -1, []; }
      var copy := (tag + behind)[..dataLen];
      room := MakeRoom(copy);
      return dataLen, room;
    }

    method MakeRoom(copy: seq<Byte>) returns (ghost room: seq<Byte>)
      requires Valid() && len >= TAGS && len >= TAGS + Be16(Contents(), LENGTH) && |copy| <= data.Length - len
      modifies this, data
      ensures Valid() && |room| == |copy| && Contents() == Prepended(old(Contents()), room, copy)
    {
      room := data[len..len + |copy|];
      ghost var s := Contents();
      var length := Get16(LENGTH);
      len := len + |copy|;
      assert Contents() == s + room;
      Shift(TAGS + |copy|, TAGS, length);
      Write(LENGTH, ToBe16(length + |copy|));
      Write(TAGS, copy);
    }

    /** Takes the first relay tag out, when the new one with its payload fits the buffer. */
    method TakeRelay() returns (fits: bool, payload: seq<Byte>)
      requires Valid() && WellFormed(Contents())
      modifies this, data
      ensures Valid() && payload == RelayPayload(old(Contents()))
      ensures fits <==> |payload| + 4 + STAMP <= TAG_BUF
      ensures Contents() == if fits then Taken(old(Contents())) else old(Contents())
    {
      var pos, n := FindRelay();
      if pos < 0 { return true, []; }
      payload := Read(pos + 4, pos + 4 + n);
      fits := n + 4 + STAMP <= TAG_BUF;
      if fits { Shorten(pos, 4 + n); }
    }

    method FindRelay() returns (pos: int, n: nat)
      requires Valid() && WellFormed(Contents())
      ensures pos == RelayPos(Contents()) && (pos != -1 ==> n == Be16(Contents(), pos + 2))
    {
      n := 0;
      pos := FindTag(RELAY);
      if pos >= 0 { n := Get16(pos + 2); }
    }

    /** The PADI and PADR case of NAT25_INSERT, with addPPPoETag set and no session. */
    method InsertDiscovery(bigEndian: bool, behind: seq<Byte>) returns (ret: int, ghost room: seq<Byte>)
      requires Valid() && WellFormed(Contents()) && |behind| >= 0x1_0000
      modifies this, data
      ensures Valid() && (ret == 0 || ret == -1)
      ensures old(Contents()[CODE]) !in {PADI, PADR} || |RelayPayload(old(Contents()))| + 4 + STAMP > TAG_BUF ==>
        ret == -1 && Contents() == old(Contents())
      ensures old(Contents()[CODE]) in {PADI, PADR} && |RelayPayload(old(Contents()))| + 4 + STAMP <= TAG_BUF ==>
        var s, copy := old(Contents()), Copied(bigEndian, StampedTag(old(Contents())), behind);
        && (ret == 0 <==> |copy| <= data.Length - |Taken(s)|)
        && (ret == -1 ==> Contents() == Taken(s))
        && (ret == 0 ==> |room| == |copy| && |Taken(s)| >= TAGS && |Taken(s)| >= TAGS + Be16(Taken(s), LENGTH)
                         && Contents() == Prepended(Taken(s), room, copy))
    {
      room := [];
      if data[CODE] != PADI && data[CODE] != PADR { return -1, room; }
      TakenKeeps(Contents());
      var mac := Read(6, 12);
      var fits, payload := TakeRelay();
      if !fits { return -1, room; }
      var added;
      added, room := AddTag(bigEndian, RelayTag(mac, payload), behind);
      return if added < 0 then -1 else 0, room;
    }

    method Unstamp(ptr: nat, n: nat)
      requires Valid() && TAGS <= ptr && STAMP <= n && ptr + 4 + n <= len && 4 + n <= Be16(Contents(), LENGTH)
      modifies this, data
      ensures Valid() && Contents() == UnstampedAt(old(Contents()), ptr, n)
    {
      ghost var s := Contents();
      var mac := Read(ptr + 6, ptr + 12);
      AddressedKeeps(s, mac, ptr);
      UnstampedSteps(s, ptr, n, Patched(s, 0, mac));
      Write(0, mac);
      DropStamp(ptr, n);
    }

    /** The rest of the tag stays, if there is any. */
    method DropStamp(ptr: nat, n: nat)
      requires Valid() && TAGS <= ptr && STAMP <= n && ptr + 4 + n <= len && 4 + n <= Be16(Contents(), LENGTH)
      modifies this, data
      ensures Valid()
      ensures Contents() == if n > STAMP
                            then Patched(Shortened(old(Contents()), ptr + 4, STAMP), ptr + 2, ToBe16(n - STAMP))
                            else Shortened(old(Contents()), ptr, 4 + STAMP)
    {
      if n > STAMP {
        Shorten(ptr + 4, STAMP);
        Write(ptr + 2, ToBe16(n - STAMP));
      } else {
        Shorten(ptr, 4 + STAMP);
      }
    }

    /** The tests on the relay tag of a reply: -1 when it is missing or not ours. */
    method FindStamp() returns (ptr: int, n: nat)
      requires Valid() && WellFormed(Contents())
      ensures ptr != -1 <==> Echoed(Contents())
      ensures ptr != -1 ==> ptr == RelayPos(Contents()) && n == Be16(Contents(), ptr + 2)
    {
      n := 0;
      ptr := FindTag(RELAY);
      if ptr < 0 { return; }
      n := Get16(ptr + 2);
      if n < STAMP { return -1, n; }
      var magic := Read(ptr + 4, ptr + 6);
      if magic != MAGIC { return -1, n; }
    }

    /** The PADO and PADS case of NAT25_LOOKUP, with addPPPoETag set. */
    method LookupDiscovery() returns (ret: int)
      requires Valid() && WellFormed(Contents())
      modifies this, data
      ensures Valid() && (ret == 0 || ret == -1)
      ensures ret == 0 <==> old(Contents()[CODE]) in {PADO, PADS} && Echoed(old(Contents()))
      ensures Contents() == if ret == 0 then Unstamped(old(Contents())) else old(Contents())
    {
      if data[CODE] != PADO && data[CODE] != PADS { return -1; }
      var ptr, n := FindStamp();
      if ptr < 0 { return -1; }
      Unstamp(ptr, n);
      return 0;
    }
  }
}
