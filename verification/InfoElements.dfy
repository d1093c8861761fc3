/** Information elements edited in place (core/rtw_ieee80211.c): removing every element of a
    kind, and removing P2P attributes from the P2P element of a stored BSS. */
module InfoElements {
  import opened Wrappers
  import opened Bytes
  import opened Tlv
  import opened Records

  const MAX_IE_SZ: nat := 768
  const FIXED: nat := 12                            // _FIXED_IE_LENGTH_
  const VENDOR: nat := 221                          // _VENDOR_SPECIFIC_IE_
  const P2P_OUI: seq<Byte> := [0x50, 0x6F, 0x9A, 0x09]
  const P2P_HEAD: nat := 6                          // id, length, OUI and OUI type

  // ---- searching --------------------------------------------------------------------

  /** The comparison of one element: its id, and the memcmp of the OUI. */
  method Matches(ies: array<Byte>, at: nat, end: nat, q: Want) returns (hit: bool)
    requires at < end <= ies.Length && Tiles(Element, ies[at..end], q)
    ensures hit == Hit(Element, ies[at..end], q)
  {
    ghost var w, n := ies[at..end], q.OuiLen();
    hit := ies[at] as nat == q.id;
    if hit && q.oui.Some? {
      assert forall j :: 0 <= j < |w| ==> w[j] == ies[at + j];
      assert w[2..2 + n] == ies[at + 2..at + 2 + n];
      hit := ies[at + 2..at + 2 + q.OuiLen()] == q.oui.value;
    }
  }

  /** rtw_get_ie_ex. With no OUI it finds what rtw_get_ie finds, whose length leaves out id and
      length byte. -1 stands for the null pointer. */
  method GetIe(ies: array<Byte>, from: nat, end: nat, q: Want) returns (pos: int, ieLen: nat)
    requires from <= end <= ies.Length && Tiles(Element, ies[from..end], q)
    ensures var w := ies[from..end]; var r := FirstHit(Element, w, q);
      && pos == (if r == |w| then -1 else from + r)
      && (r < |w| ==> ieLen == ies[from + r + 1] as int + 2)
  {
    var cnt: nat := from;
    ghost var w0, w := ies[from..end], ies[from..end];
    while cnt < end
      invariant from <= cnt <= end && w0 == ies[from..end] && w == ies[cnt..end] && Tiles(Element, w, q)
      invariant FirstHit(Element, w0, q) == cnt - from + FirstHit(Element, w, q)
    {
      var hit := Matches(ies, cnt, end, q);
      if hit { return cnt, ies[cnt + 1] as int + 2; }
      ghost var n := RecLen(Element, w);
      assert ies[cnt + n..end] == w[n..];
      w := w[n..];
      cnt := cnt + (ies[cnt + 1] as int + 2);
    }
    return -1, 0;
  }

  // ---- removing elements --------------------------------------------------------------

  /** What lies behind the first element meant fits the copy buffer. */
  predicate RemainderFits(w: seq<Byte>, q: Want)
    requires Tiles(Element, w, q)
  {
    var r := FirstHit(Element, w, q);
    r + 1 < |w| ==> |w| - (r + w[r + 1] as int + 2) <= MAX_IE_SZ
  }

  /** rtw_ies_remove_ie. What lies behind the new length is of no interest; what lies behind
      the old one stays. */
  method RemoveIe(ies: array<Byte>, iesLen: nat, offset: nat, q: Want) returns (ok: bool, newLen: nat)
    requires iesLen <= ies.Length
    requires offset < iesLen ==> Tiles(Element, ies[offset..iesLen], q) && RemainderFits(ies[offset..iesLen], q)
    modifies ies
    ensures iesLen <= offset ==> !ok && newLen == iesLen && ies[..] == old(ies[..])
    ensures offset < iesLen ==>
      var kept := Kept(Element, old(ies[offset..iesLen]), q);
      && newLen == offset + |kept| && ies[..newLen] == old(ies[..offset]) + kept
      && (ok <==> newLen < iesLen)
    ensures ies[iesLen..] == old(ies[iesLen..])
  {
    ok, newLen := false, iesLen;
    if iesLen <= offset { return; }
    var start: nat := offset;
    ghost var all, tail := Goal(ies[..offset], ies[offset..iesLen], q), ies[iesLen..];
    GoalIs(ies[..offset], ies[offset..iesLen], q);
    while true
      invariant start <= newLen <= iesLen && (ok <==> newLen < iesLen)
      invariant Tiles(Element, ies[start..newLen], q) && Goal(ies[..start], ies[start..newLen], q) == all
      invariant RemainderFits(ies[start..newLen], q)
      invariant ies[iesLen..] == tail
      decreases newLen - start
    {
      ghost var s := ies[..];
      var target, targetLen := GetIe(ies, start, newLen, q);
      if target < 0 { break; }
      var newLen1 := CutOut(ies, start, newLen, q, target, targetLen);
      TailKept(s, ies[..], newLen, iesLen);
      newLen := newLen1;
      ok := true;
      start := target;
    }
    AllOut(ies[..], start, newLen, q);
  }

  /** One element is cut out of the buffer. */
  method CutOut(ies: array<Byte>, ghost start: nat, len: nat, ghost q: Want, at: nat, n: nat) returns (len1: nat)
    requires start <= len <= ies.Length && Tiles(Element, ies[start..len], q)
    requires start <= at < len && at - start == FirstHit(Element, ies[start..len], q) && n == ies[at + 1] as int + 2
    requires RemainderFits(ies[start..len], q)
    modifies ies
    ensures at <= len1 < len && ies[len..] == old(ies[len..])
    ensures Tiles(Element, ies[at..len1], q) && RemainderFits(ies[at..len1], q)
    ensures Goal(ies[..at], ies[at..len1], q) == Goal(old(ies[..start]), old(ies[start..len]), q)
  {
    ghost var s := ies[..];
    assert s[start..len] == ies[start..len] && s[..start] == ies[..start];
    var rest := len - n;
    HitFits(s, start, len, q, at, n);
    Move(ies, at, at + n, len - (at + n));
    TakeOut(s, start, len, q, at, n, rest, ies[..]);
    len1 := rest;
  }

  /** The copy buffer is large enough. */
  lemma CopyFits(s: seq<Byte>, start: nat, len: nat, q: Want, at: nat, n: nat)
    requires start <= at && at + n <= len <= |s| && Tiles(Element, s[start..len], q) && RemainderFits(s[start..len], q)
    requires at - start == FirstHit(Element, s[start..len], q) && 2 <= n && n == s[at + 1] as int + 2
    ensures len - (at + n) <= MAX_IE_SZ
  {
    assert s[start..len][at - start + 1] == s[at + 1];
  }

  lemma ShortFits(w: seq<Byte>, q: Want)
    requires Tiles(Element, w, q) && |w| <= MAX_IE_SZ
    ensures RemainderFits(w, q)
  {
  }

  /** Where the walk leads that has kept `pre` and still has to look at w. */
  function Goal(pre: seq<Byte>, w: seq<Byte>, q: Want): seq<Byte>
    requires Tiles(Element, w, q)
    decreases |w|
  {
    if w == [] then pre
    else if Hit(Element, w, q) then Goal(pre, w[RecLen(Element, w)..], q)
    else Goal(pre + w[..RecLen(Element, w)], w[RecLen(Element, w)..], q)
  }

  lemma {:induction false} GoalIs(pre: seq<Byte>, w: seq<Byte>, q: Want)
    requires Tiles(Element, w, q)
    ensures Goal(pre, w, q) == pre + Kept(Element, w, q)
    decreases |w|
  {
    if w != [] {
      var n := RecLen(Element, w);
      GoalIs(if Hit(Element, w, q) then pre else pre + w[..n], w[n..], q);
      Concat(pre, w[..n], Kept(Element, w[n..], q));
    }
  }

  lemma {:induction false} SkipGoal(pre: seq<Byte>, w: seq<Byte>, q: Want, r: nat)
    requires Tiles(Element, w, q) && r == FirstHit(Element, w, q)
    ensures Tiles(Element, w[r..], q) && Goal(pre, w, q) == Goal(pre + w[..r], w[r..], q)
    decreases |w|
  {
    if w == [] || Hit(Element, w, q) {
      assert w[0..] == w && pre + w[..0] == pre;
    } else {
      var n := RecLen(Element, w);
      SkipGoal(pre + w[..n], w[n..], q, r - n);
      Peel(w, n, r, r - n);
      Concat(pre, w[..n], w[n..][..r - n]);
    }
  }

  lemma AllOut(s: seq<Byte>, start: nat, len: nat, q: Want)
    requires start <= len <= |s| && Tiles(Element, s[start..len], q)
    requires FirstHit(Element, s[start..len], q) == len - start
    ensures s[..len] == Goal(s[..start], s[start..len], q)
  {
    SkipGoal(s[..start], s[start..len], q, len - start);
    assert s[start..len][len - start..] == [];
  }

  lemma HitFits(s: seq<Byte>, start: nat, len: nat, q: Want, at: nat, n: nat)
    requires start <= len <= |s| && Tiles(Element, s[start..len], q)
    requires start <= at < len && at - start == FirstHit(Element, s[start..len], q) && n == s[at + 1] as int + 2
    ensures at + n <= len
  {
    SkipToHit(Element, s[start..len], q, at - start);
    assert s[start..len][at - start..] == s[at..len];
  }

  lemma TakeOut(s: seq<Byte>, start: nat, len: nat, q: Want, at: nat, n: nat, len1: int, t: seq<Byte>)
    requires start <= len <= |s| && Tiles(Element, s[start..len], q)
    requires start <= at && at - start == FirstHit(Element, s[start..len], q)
    requires at + 2 <= at + n <= len && n == s[at + 1] as int + 2
    requires len1 == len - n && t == Moved(s, at, at + n, len - (at + n)) && RemainderFits(s[start..len], q)
    ensures len - (at + n) <= MAX_IE_SZ      // what goes through the copy buffer
    ensures t[len..] == s[len..] && Tiles(Element, t[at..len1], q) && RemainderFits(t[at..len1], q)
    ensures Goal(t[..at], t[at..len1], q) == Goal(s[..start], s[start..len], q)
  {
    var w, r := s[start..len], at - start;
    SkipGoal(s[..start], w, q, r);
    SkipToHit(Element, w, q, r);
    Pieces(s, start, at, r, n, len, len1, t);
    HitGoal(t[..at], w[r..], q, n);
    CopyFits(s, start, len, q, at, n);
    ShortFits(t[at..len1], q);
  }

  lemma HitGoal(pre: seq<Byte>, v: seq<Byte>, q: Want, n: nat)
    requires v != [] && Tiles(Element, v, q) && Hit(Element, v, q) && n == v[1] as int + 2
    ensures n <= |v| && Tiles(Element, v[n..], q) && Goal(pre, v, q) == Goal(pre, v[n..], q)
  {
  }

  lemma TailKept(s: seq<Byte>, t: seq<Byte>, len: nat, n: nat)
    requires len <= n <= |s| == |t| && t[len..] == s[len..]
    ensures t[n..] == s[n..]
  {
    assert s[n..] == s[len..][n - len..];
    assert t[n..] == t[len..][n - len..];
  }

  /** Moving the tail down over n bytes. */
  lemma Pieces(s: seq<Byte>, start: nat, at: nat, r: nat, n: nat, len: nat, len1: int, t: seq<Byte>)
    requires start <= at && r == at - start && at + 2 <= at + n <= len <= |s| && len1 == len - n
    requires t == Moved(s, at, at + n, len - (at + n))
    ensures var v := s[start..len][r..];
      && |v| == len - at && v[1] == s[at + 1] && t[at..len1] == v[n..]
    ensures t[..at] == s[..start] + s[start..len][..r] && t[len..] == s[len..]
  {
    var w := s[start..len];
    var v := w[r..];
    assert v == s[at..len];
    assert t[at..len1] == s[at + n..len] == v[n..];
    assert t[..at] == s[..at] == s[..start] + w[..r];
  }

  // ---- P2P attributes -----------------------------------------------------------------

  const P2P: Want := Want(VENDOR, Some(P2P_OUI))

  function Attr(id: nat): Want {
    Want(id, None)
  }

  /** An element with P2P head whose attributes can be walked. */
  predicate IsP2p(e: seq<Byte>, id: nat) {
    && P2P_HEAD <= |e| && e[0] == VENDOR && e[1] == |e| - 2 && e[2..P2P_HEAD] == P2P_OUI
    && Tiles(P2pAttribute, e[P2P_HEAD..], Attr(id))
  }

  /** The element without its attributes of that id, the length byte adjusted. */
  function Thinned(e: seq<Byte>, id: nat): (r: seq<Byte>)
    requires IsP2p(e, id)
    ensures P2P_HEAD <= |r| <= |e|
  {
    var kept := Kept(P2pAttribute, e[P2P_HEAD..], Attr(id));
    P2pHead(P2P_HEAD + |kept|) + kept
  }

  function P2pHead(n: nat): (r: seq<Byte>)
    ensures |r| == P2P_HEAD
  {
    [VENDOR, (n - 2) % 256] + P2P_OUI
  }

  /** rtw_get_p2p_attr, for an element of length n at `base`. */
  method GetAttr(ies: array<Byte>, base: nat, n: nat, id: nat) returns (pos: int, attrLen: nat)
    requires P2P_HEAD <= n && base + n <= ies.Length && Tiles(P2pAttribute, ies[base + P2P_HEAD..base + n], Attr(id))
    ensures ies[base] != VENDOR || ies[base + 2..base + P2P_HEAD] != P2P_OUI ==> pos == -1
    ensures ies[base] == VENDOR && ies[base + 2..base + P2P_HEAD] == P2P_OUI ==>
      var w := ies[base + P2P_HEAD..base + n]; var r := FirstHit(P2pAttribute, w, Attr(id));
      && pos == (if r == |w| then -1 else base + P2P_HEAD + r)
      && (r < |w| ==> attrLen == ies[base + P2P_HEAD + r + 2] as int * 256 + ies[base + P2P_HEAD + r + 1] + 3)
  {
    if ies[base] != VENDOR || ies[base + 2..base + P2P_HEAD] != P2P_OUI { return -1, 0; }
    pos, attrLen := WalkAttrs(ies, base + P2P_HEAD, base + n, id);
  }

  method WalkAttrs(ies: array<Byte>, from: nat, end: nat, id: nat) returns (pos: int, attrLen: nat)
    requires from <= end <= ies.Length && Tiles(P2pAttribute, ies[from..end], Attr(id))
    ensures var w := ies[from..end]; var r := FirstHit(P2pAttribute, w, Attr(id));
      && pos == (if r == |w| then -1 else from + r)
      && (r < |w| ==> attrLen == ies[from + r + 2] as int * 256 + ies[from + r + 1] + 3)
  {
    var cur: nat := from;
    ghost var w0, w, q := ies[from..end], ies[from..end], Attr(id);
    while cur < end
      invariant from <= cur <= end && w0 == ies[from..end] && w == ies[cur..end] && Tiles(P2pAttribute, w, q)
      invariant FirstHit(P2pAttribute, w0, q) == cur - from + FirstHit(P2pAttribute, w, q)
    {
      ghost var len := RecLen(P2pAttribute, w);
      attrLen := ies[cur + 2] as int * 256 + ies[cur + 1] + 3;
      assert w[0] == ies[cur] && attrLen == len;
      if ies[cur] as nat == id { return cur, attrLen; }
      assert ies[cur + len..end] == w[len..];
      w := w[len..];
      cur := cur + attrLen;
    }
    return -1, 0;
  }

  /** Clears n bytes, moves the m bytes behind them over them, and clears what that frees. */
  method ClearOut(ies: array<Byte>, at: nat, n: nat, m: nat)
    requires at + n + m <= ies.Length
    modifies ies
    ensures forall j {:trigger ies[j]} :: 0 <= j < ies.Length ==>
      ies[j] == if at <= j < at + m then old(ies[j + n]) else if at + m <= j < at + m + n then 0 else old(ies[j])
  {
    forall j | at <= j < at + n { ies[j] := 0; }
    forall j | at <= j < at + m { ies[j] := ies[j + n]; }
    forall j | at + m <= j < at + m + n { ies[j] := 0; }
  }

  /** The element of e0 partly thinned: length n so far, cleared behind. */
  predicate Thinning(e0: seq<Byte>, e: seq<Byte>, n: nat, id: nat) {
    && IsP2p(e0, id) && |e| == |e0| && P2P_HEAD <= n <= |e|
    && e[0] == VENDOR && e[1] as int == n - 2 && e[2..P2P_HEAD] == P2P_OUI
    && (forall j :: n <= j < |e| ==> e[j] == 0)
    && Tiles(P2pAttribute, e[P2P_HEAD..n], Attr(id))
    && Kept(P2pAttribute, e[P2P_HEAD..n], Attr(id)) == Kept(P2pAttribute, e0[P2P_HEAD..], Attr(id))
  }

  lemma ThinningStarts(e: seq<Byte>, id: nat)
    requires IsP2p(e, id)
    ensures Thinning(e, e, |e|, id)
  {
    assert e[P2P_HEAD..|e|] == e[P2P_HEAD..];
  }

  lemma ThinningEnds(e0: seq<Byte>, e: seq<Byte>, n: nat, id: nat)
    requires Thinning(e0, e, n, id) && FirstHit(P2pAttribute, e[P2P_HEAD..n], Attr(id)) == n - P2P_HEAD
    ensures n == |Thinned(e0, id)| && e == Thinned(e0, id) + Zeros(|e| - n)
  {
    var w := e[P2P_HEAD..n];
    SkipToHit(P2pAttribute, w, Attr(id), n - P2P_HEAD);
    HeadBytes(e, n);
    assert e == (e[..P2P_HEAD] + w) + e[n..];
    assert e[n..] == Zeros(|e| - n);
  }

  lemma HeadBytes(e: seq<Byte>, n: nat)
    requires P2P_HEAD <= n <= |e| && e[0] == VENDOR && e[1] as int == n - 2 && e[2..P2P_HEAD] == P2P_OUI
    ensures e[..P2P_HEAD] == P2pHead(n)
  {
    assert e[..P2P_HEAD] == [e[0], e[1]] + e[2..P2P_HEAD];
  }

  /** What taking one attribute out does to the element, byte by byte. */
  predicate OneLess(e: seq<Byte>, e': seq<Byte>, at: nat, len: nat, n: nat) {
    |e'| == |e| && P2P_HEAD <= at && at + len <= n <= |e| &&
    forall j {:trigger e'[j]} :: 0 <= j < |e| ==>
      e'[j] as int == if j == 1 then e[j] - len else if at <= j < n - len then e[j + len]
               else if n - len <= j < n then 0 else e[j]
  }

  lemma {:induction false} AttrFits(e: seq<Byte>, w: seq<Byte>, n: nat, id: nat, r: nat, len: nat)
    requires P2P_HEAD <= n <= |e| && w == e[P2P_HEAD..n] && Tiles(P2pAttribute, w, Attr(id))
    requires r == FirstHit(P2pAttribute, w, Attr(id)) < |w|
    requires len == e[P2P_HEAD + r + 2] as int * 256 + e[P2P_HEAD + r + 1] + 3
    ensures P2P_HEAD + r + len <= n && Tiles(P2pAttribute, w[r..][len..], Attr(id))
    ensures Kept(P2pAttribute, w, Attr(id)) == w[..r] + Kept(P2pAttribute, w[r..][len..], Attr(id))
  {
    SkipToHit(P2pAttribute, w, Attr(id), r);
    var v := w[r..];
    assert v[1] == e[P2P_HEAD + r + 1] && v[2] == e[P2P_HEAD + r + 2];
    KeptAfterHit(P2pAttribute, v, Attr(id));
  }

  /** Behind the attributes already passed by, any other ones may follow. */
  lemma {:induction false} KeptBehind(w: seq<Byte>, r: nat, v: seq<Byte>, id: nat, x: seq<Byte>)
    requires Tiles(P2pAttribute, w, Attr(id)) && r == FirstHit(P2pAttribute, w, Attr(id))
    requires Tiles(P2pAttribute, v, Attr(id)) && x == w[..r] + v
    ensures Tiles(P2pAttribute, x, Attr(id))
    ensures Kept(P2pAttribute, x, Attr(id)) == w[..r] + Kept(P2pAttribute, v, Attr(id))
    decreases |w|
  {
    if w == [] || Hit(P2pAttribute, w, Attr(id)) {
      assert x == v;
    } else {
      var n := RecLen(P2pAttribute, w);
      PeelAppended(w, n, r, r - n, v, x);
      KeptBehind(w[n..], r - n, v, id, x[n..]);
      SameHead(w, x, n, id);
      Concat(w[..n], w[n..][..r - n], Kept(P2pAttribute, v, Attr(id)));
    }
  }

  lemma PeelAppended(w: seq<Byte>, n: nat, r: nat, m: nat, v: seq<Byte>, x: seq<Byte>)
    requires n <= r <= |w| && m == r - n && x == w[..r] + v
    ensures x[..n] == w[..n] && x[n..] == w[n..][..m] + v && w[..r] == w[..n] + w[n..][..m]
  {
  }

  lemma SameHead(w: seq<Byte>, x: seq<Byte>, n: nat, id: nat)
    requires w != [] && Tiles(P2pAttribute, w, Attr(id)) && n == RecLen(P2pAttribute, w)
    requires n <= |x| && x[..n] == w[..n] && Tiles(P2pAttribute, x[n..], Attr(id)) && !Hit(P2pAttribute, w, Attr(id))
    ensures Tiles(P2pAttribute, x, Attr(id))
    ensures Kept(P2pAttribute, x, Attr(id)) == w[..n] + Kept(P2pAttribute, x[n..], Attr(id))
  {
    assert x[0] == x[..n][0] && x[1] == x[..n][1] && x[2] == x[..n][2];
    assert w[0] == w[..n][0] && w[1] == w[..n][1] && w[2] == w[..n][2];
  }

  lemma ThinningStep(e0: seq<Byte>, e: seq<Byte>, n: nat, id: nat, r: nat, len: nat, e': seq<Byte>, n': int)
    requires Thinning(e0, e, n, id) && r == FirstHit(P2pAttribute, e[P2P_HEAD..n], Attr(id)) < n - P2P_HEAD
    requires len == e[P2P_HEAD + r + 2] as int * 256 + e[P2P_HEAD + r + 1] + 3 && n' == n - len
    requires OneLess(e, e', P2P_HEAD + r, len, n)
    ensures n' >= 0 && Thinning(e0, e', n', id)
  {
    var w := e[P2P_HEAD..n];
    AttrFits(e, w, n, id, r, len);
    KeptBehind(w, r, w[r..][len..], id, w[..r] + w[r..][len..]);
    OneLessBytes(e, e', r, len, n, n');
  }

  lemma OneLessBytes(e: seq<Byte>, e': seq<Byte>, r: nat, len: nat, n: nat, n': int)
    requires OneLess(e, e', P2P_HEAD + r, len, n) && n' == n - len && P2P_HEAD + r + len <= n
    ensures P2P_HEAD <= n' && e'[P2P_HEAD..n'] == e[P2P_HEAD..n][..r] + e[P2P_HEAD..n][r..][len..]
    ensures e'[0] == e[0] && e'[2..P2P_HEAD] == e[2..P2P_HEAD] && e'[1] as int == e[1] - len
  {
    var w, v := e[P2P_HEAD..n], e'[P2P_HEAD..n'];
    var a, b := w[..r], w[r..][len..];
    assert |a + b| == |v|;
    forall j | 0 <= j < |v| ensures v[j] == (a + b)[j] {
      assert v[j] == e'[P2P_HEAD + j];
      if j < r {
        assert (a + b)[j] == a[j] == w[j] == e[P2P_HEAD + j];
      } else {
        assert (a + b)[j] == b[j - r] == w[r..][len + (j - r)] == w[j + len] == e[P2P_HEAD + (j + len)];
      }
    }
  }

  /** rtw_p2p_attr_remove, on the element of length ori at `base`. The search starts again at
      the front after each removal. */
  method RemoveAttrs(ies: array<Byte>, base: nat, ori: nat, id: nat) returns (n: nat)
    requires base + ori <= ies.Length && IsP2p(ies[base..base + ori], id)
    modifies ies
    ensures var e := old(ies[base..base + ori]);
      n == |Thinned(e, id)| && ies[base..base + ori] == Thinned(e, id) + Zeros(ori - n)
    ensures forall j :: 0 <= j < base || base + ori <= j < ies.Length ==> ies[j] == old(ies[j])
  {
    n := ori;
    ghost var e0, e := ies[base..base + ori], ies[base..base + ori];
    ThinningStarts(e0, id);
    while true
      invariant e == ies[base..base + ori] && Thinning(e0, e, n, id)
      invariant forall j :: 0 <= j < base || base + ori <= j < ies.Length ==> ies[j] == old(ies[j])
      decreases n
    {
      var target, len := FirstAttr(ies, base, ori, n, id, e0, e, e[P2P_HEAD..n]);
      if target < 0 { break; }
      n, e := CutAttr(ies, base, ori, n, id, target, len, e0, e, e[P2P_HEAD..n]);
    }
    ThinningEnds(e0, e, n, id);
  }

  /** The search as the loop above uses it. */
  method FirstAttr(ies: array<Byte>, base: nat, ghost ori: nat, n: nat, id: nat,
                   ghost e0: seq<Byte>, ghost e: seq<Byte>, ghost w: seq<Byte>)
    returns (pos: int, len: nat)
    requires base + ori <= ies.Length && e == ies[base..base + ori] && Thinning(e0, e, n, id) && w == e[P2P_HEAD..n]
    ensures var r := FirstHit(P2pAttribute, w, Attr(id));
      && pos == (if r == n - P2P_HEAD then -1 else base + P2P_HEAD + r)
      && (pos != -1 ==> base + P2P_HEAD <= pos && pos + 2 < base + n
                        && len == ies[pos + 2] as int * 256 + ies[pos + 1] + 3)
  {
    Inside(ies[..], base, ori, n, e);
    pos, len := GetAttr(ies, base, n, id);
  }

  /** One attribute is taken out, the length byte and the length corrected. */
  method CutAttr(ies: array<Byte>, base: nat, ori: nat, n: nat, ghost id: nat, target: nat, len: nat,
                 ghost e0: seq<Byte>, ghost e: seq<Byte>, ghost w: seq<Byte>)
    returns (n1: nat, ghost e1: seq<Byte>)
    requires base + ori <= ies.Length && e == ies[base..base + ori] && Thinning(e0, e, n, id)
    requires base + P2P_HEAD <= target < base + n && w == e[P2P_HEAD..n]
    requires target - (base + P2P_HEAD) == FirstHit(P2pAttribute, w, Attr(id))
    requires len == ies[target + 2] as int * 256 + ies[target + 1] + 3
    modifies ies
    ensures n1 < n && e1 == ies[base..base + ori] && Thinning(e0, e1, n1, id)
    ensures forall j :: 0 <= j < base || base + ori <= j < ies.Length ==> ies[j] == old(ies[j])
  {
    ghost var s, r := ies[..], target - (base + P2P_HEAD);
    assert ies[base + 1] == e[1];
    CutFits(e0, e, w, n, id, r, ies[target + 1], ies[target + 2], len);
    n1 := n - len;
    ClearOut(ies, target, len, base + n - (target + len));
    ies[base + 1] := ies[base + 1] - len;
    e1 := ies[base..base + ori];
    OneLessFrom(s, ies[..], base, ori, n, target, len, r, e, e1);
    ThinningStep(e0, e, n, id, r, len, e1, n1);
  }

  lemma CutFits(e0: seq<Byte>, e: seq<Byte>, w: seq<Byte>, n: nat, id: nat, r: nat, lo: Byte, hi: Byte, len: nat)
    requires Thinning(e0, e, n, id) && w == e[P2P_HEAD..n] && r == FirstHit(P2pAttribute, w, Attr(id)) < |w|
    requires lo == e[P2P_HEAD + r + 1] && hi == e[P2P_HEAD + r + 2] && len == hi as int * 256 + lo + 3
    ensures P2P_HEAD + r + len <= n && len <= e[1] as int
  {
    AttrFits(e, w, n, id, r, len);
  }

  lemma OneLessFrom(s: seq<Byte>, t: seq<Byte>, base: nat, ori: nat, n: nat, at: nat, len: nat, r: nat,
                    e: seq<Byte>, e': seq<Byte>)
    requires base + ori <= |s| == |t| && e == s[base..base + ori] && e' == t[base..base + ori]
    requires n <= ori && at == base + P2P_HEAD + r && P2P_HEAD + r + len <= n
    requires forall j {:trigger t[j]} :: 0 <= j < |s| ==>
      t[j] as int == if j == base + 1 then s[j] - len else if at <= j < base + n - len then s[j + len]
                     else if base + n - len <= j < base + n then 0 else s[j]
    ensures OneLess(e, e', P2P_HEAD + r, len, n)
  {
  }

  lemma Inside(s: seq<Byte>, base: nat, ori: nat, n: nat, e: seq<Byte>)
    requires base + ori <= |s| && P2P_HEAD <= n <= ori && e == s[base..base + ori]
    ensures s[base] == e[0] && s[base + P2P_HEAD..base + n] == e[P2P_HEAD..n]
    ensures s[base + 2..base + P2P_HEAD] == e[2..P2P_HEAD]
  {
    assert forall j :: 0 <= j < |e| ==> e[j] == s[base + j];
    forall j | 0 <= j < 4 ensures s[base + 2..base + P2P_HEAD][j] == e[2..P2P_HEAD][j] {
      assert e[2 + j] == s[base + (2 + j)];
    }
    forall j | 0 <= j < n - P2P_HEAD ensures s[base + P2P_HEAD..base + n][j] == e[P2P_HEAD..n][j] {
      assert e[P2P_HEAD + j] == s[base + (P2P_HEAD + j)];
    }
  }

  // ---- a stored BSS -------------------------------------------------------------------

  /** The P2P element of the elements behind the fixed fields, if there is one. */
  predicate HasP2p(s: seq<Byte>) {
    FIXED <= |s| && Tiles(Element, s[FIXED..], P2P) && FirstHit(Element, s[FIXED..], P2P) < |s| - FIXED
  }

  function P2pAt(s: seq<Byte>): (r: nat)
    requires HasP2p(s)
    ensures FIXED <= r && r + 2 <= |s|
  {
    FIXED + FirstHit(Element, s[FIXED..], P2P)
  }

  function P2pEnd(s: seq<Byte>): nat
    requires HasP2p(s)
  {
    P2pAt(s) + 2 + s[P2pAt(s) + 1] as int
  }

  /** The elements tile the BSS's buffer, and the attributes its P2P element. */
  predicate Editable(s: seq<Byte>, id: nat) {
    && FIXED <= |s| && Tiles(Element, s[FIXED..], P2P)
    && (HasP2p(s) ==> P2pEnd(s) <= |s| && IsP2p(s[P2pAt(s)..P2pEnd(s)], id))
  }

  function BssThinned(s: seq<Byte>, id: nat): (r: seq<Byte>)
    requires Editable(s, id)
    ensures |r| <= |s|
  {
    if HasP2p(s) then s[..P2pAt(s)] + Thinned(s[P2pAt(s)..P2pEnd(s)], id) + s[P2pEnd(s)..] else s
  }

  /** The elements of a BSS (WLAN_BSSID_EX). */
  class Bss {
    const ies: array<Byte>
    var ieLength: nat

    ghost predicate Valid()
      reads this
    {
      FIXED <= ieLength <= ies.Length <= MAX_IE_SZ
    }

    ghost function Contents(): seq<Byte>
      requires Valid()
      reads this, ies
    {
      ies[..ieLength]
    }

    constructor (ies: array<Byte>, ieLength: nat)
      requires FIXED <= ieLength <= ies.Length <= MAX_IE_SZ
      ensures Valid() && this.ies == ies && this.ieLength == ieLength
    {
      this.ies := ies;
      this.ieLength := ieLength;
    }

    /** rtw_WLAN_BSSID_EX_remove_p2p_attr */
    method RemoveP2pAttr(id: nat)
      requires Valid() && Editable(Contents(), id)
      modifies this, ies
      ensures Valid() && ieLength <= old(ieLength) && Contents() == BssThinned(old(Contents()), id)
      ensures forall j :: ieLength <= j < old(ieLength) ==> ies[j] == 0
      ensures forall j :: old(ieLength) <= j < ies.Length ==> ies[j] == old(ies[j])
    {
      ghost var s := Contents();
      assert ies[FIXED..ieLength] == s[FIXED..];
      var base, ori := GetIe(ies, FIXED, ieLength, P2P);
      if base < 0 { return; }
      ghost var pre, e, post := s[..base], s[base..base + ori], s[base + ori..];
      assert s == pre + e + post;
      ThinAt(base, ori, id, pre, e, post);
    }

    method ThinAt(base: nat, ori: nat, id: nat, ghost pre: seq<Byte>, ghost e: seq<Byte>, ghost post: seq<Byte>)
      requires Valid() && Contents() == pre + e + post && base == |pre| && ori == |e| && FIXED <= base && IsP2p(e, id)
      modifies this, ies
      ensures Valid() && ieLength <= old(ieLength) && Contents() == pre + Thinned(e, id) + post
      ensures forall j :: ieLength <= j < old(ieLength) ==> ies[j] == 0
      ensures forall j :: old(ieLength) <= j < ies.Length ==> ies[j] == old(ies[j])
    {
      Middle(ies[..], ieLength, pre, e, post);
      var n := RemoveAttrs(ies, base, ori, id);
      ghost var t := Thinned(e, id);
      InPlace(ies[..], pre, e, post, t + Zeros(ori - n), ieLength);
      Shrink(base + n, base + ori, pre, t, Zeros(ori - n), post);
    }

    /** The elements behind the P2P element close up. */
    method Shrink(to: nat, from: nat,
                  ghost pre: seq<Byte>, ghost t: seq<Byte>, ghost z: seq<Byte>, ghost post: seq<Byte>)
      requires Valid() && Contents() == pre + (t + z) + post && to == |pre + t| && from == to + |z| && FIXED <= |pre|
      requires forall k :: 0 <= k < |z| ==> z[k] == 0
      modifies this, ies
      ensures Valid() && ieLength == old(ieLength) - |z| && Contents() == pre + t + post
      ensures forall j :: ieLength <= j < old(ieLength) ==> ies[j] == 0
      ensures forall j :: old(ieLength) <= j < ies.Length ==> ies[j] == old(ies[j])
    {
      ghost var s1 := ies[..];
      if to != from { CloseGap(ies, to, from, ieLength); }
      GapClosed(s1, ies[..], pre, t, z, post, to, from, ieLength);
      ieLength := ieLength - (from - to);
    }
  }

  lemma Middle(s: seq<Byte>, len: nat, a: seq<Byte>, b: seq<Byte>, c: seq<Byte>)
    requires len <= |s| && s[..len] == a + b + c
    ensures |a| + |b| + |c| == len && s[|a|..|a| + |b|] == b
    ensures (forall j :: 0 <= j < |a| ==> s[j] == a[j])
    ensures (forall j :: |a| + |b| <= j < len ==> s[j] == c[j - |a| - |b|])
  {
    var w := s[..len];
    assert w[|a|..|a| + |b|] == b;
    assert forall j :: 0 <= j < len ==> s[j] == w[j];
  }

  lemma InPlace(s1: seq<Byte>, a: seq<Byte>, b: seq<Byte>, c: seq<Byte>, x: seq<Byte>, len: nat)
    requires |a| + |b| + |c| == len <= |s1| && s1[|a|..|a| + |b|] == x
    requires forall j :: 0 <= j < |a| ==> s1[j] == a[j]
    requires forall j :: |a| + |b| <= j < len ==> s1[j] == c[j - |a| - |b|]
    ensures s1[..len] == a + x + c
  {
    assert s1[..len] == s1[..|a|] + s1[|a|..|a| + |b|] + s1[|a| + |b|..len];
    assert s1[..|a|] == a && s1[|a| + |b|..len] == c;
  }

  lemma GapClosed(s: seq<Byte>, t: seq<Byte>, pre: seq<Byte>, x: seq<Byte>, z: seq<Byte>, post: seq<Byte>,
                  to: nat, from: nat, end: nat)
    requires |s| == |t| && end <= |s| && s[..end] == pre + (x + z) + post
    requires to == |pre + x| && from == to + |z|
    requires z == [] ==> t == s
    requires z != [] ==> forall j {:trigger t[j]} :: 0 <= j < to + |post| ==>
      t[j] == if to <= j then s[j + |z|] else s[j]
    ensures end == from + |post| && t[..to + |post|] == pre + x + post
  {
    var u := s[..end];
    assert u == (pre + x) + z + post;
    assert u[..to] == pre + x && u[from..] == post;
    forall j | 0 <= j < to + |post| ensures t[j] == (pre + x + post)[j] {
      if j >= to { assert u[j + |z|] == post[j - to]; } else { assert u[j] == (pre + x)[j]; }
    }
  }

  /** Moves the bytes from `from` to `end` down to `to` and clears what they leave. */
  method CloseGap(a: array<Byte>, to: nat, from: nat, end: nat)
    requires to <= from <= end <= a.Length
    modifies a
    ensures forall j {:trigger a[j]} :: 0 <= j < a.Length ==>
      a[j] == if to <= j < to + (end - from) then old(a[j + (from - to)])
              else if to + (end - from) <= j < end then 0 else old(a[j])
  {
    var n, d := end - from, from - to;
    forall j | to <= j < to + n { a[j] := a[j + d]; }
    forall j | to + n <= j < end { a[j] := 0; }
  }

  // ---- what this means for the elements -----------------------------------------------

  /** RemoveIe leaves the bytes before the offset and the elements behind it that do not match,
      and reports success exactly when it removed one. */
  lemma RemoveIeMeans(es: seq<Elem>, q: Want, w: seq<Byte>)
    requires AllFit(Element, es) && q.Comparable(es) && w == EncAll(Element, es)
    ensures Tiles(Element, w, q) && Kept(Element, w, q) == EncAll(Element, Rest(es, q))
    ensures |Kept(Element, w, q)| < |w| <==> exists e :: e in es && q.Matches(e)
  {
    KeptIs(Element, es, q, w);
    SmallerMeansRemoved(es, q);
  }

  lemma {:induction false} SmallerMeansRemoved(es: seq<Elem>, q: Want)
    ensures Size(Element, Rest(es, q)) <= Size(Element, es)
    ensures Size(Element, Rest(es, q)) < Size(Element, es) <==> exists e :: e in es && q.Matches(e)
  {
    if es != [] {
      SmallerMeansRemoved(es[1..], q);
      FirstOf(Element, es);
      var rest := Rest(es[1..], q);
      if !q.Matches(es[0]) { FirstOf(Element, [es[0]] + rest); assert ([es[0]] + rest)[1..] == rest; }
      assert forall e :: e in es <==> e == es[0] || e in es[1..];
    }
  }

  /** A P2P element with these attributes. */
  function P2pElem(attrs: seq<Elem>): Elem {
    Elem(VENDOR, P2P_OUI + EncAll(P2pAttribute, attrs))
  }

  /** Of all elements only the first P2P element changes, and of its attributes only those with
      that id go. */
  lemma BssThinnedMeans(fixed: seq<Byte>, es: seq<Elem>, attrs: seq<Elem>, id: nat)
    requires |fixed| == FIXED && AllFit(Element, es) && AllFit(P2pAttribute, attrs) && P2P.Comparable(es)
    requires Find(es, P2P) < |es| ==> es[Find(es, P2P)] == P2pElem(attrs)
    ensures var s := fixed + EncAll(Element, es);
      && Editable(s, id)
      && BssThinned(s, id) == fixed + EncAll(Element, if Find(es, P2P) == |es| then es
                                             else es[Find(es, P2P) := P2pElem(Rest(attrs, Attr(id)))])
  {
    var k, w := Find(es, P2P), EncAll(Element, es);
    var s := fixed + w;
    assert s[FIXED..] == w;
    FirstHitIs(Element, es, P2P, w);
    if k < |es| {
      var a, e, c := EncTo(Element, es, k), Enc(Element, es[k]), EncAll(Element, es[k + 1..]);
      Around(Element, es, k);
      EncReplaced(Element, es, k, P2pElem(Rest(attrs, Attr(id))));
      ThinnedMeans(attrs, id, e);
      BssParts(fixed, a, e, c, s, id);
    }
  }

  lemma ThinnedMeans(attrs: seq<Elem>, id: nat, e: seq<Byte>)
    requires AllFit(P2pAttribute, attrs) && Fits(Element, P2pElem(attrs)) && e == Enc(Element, P2pElem(attrs))
    ensures IsP2p(e, id) && Thinned(e, id) == Enc(Element, P2pElem(Rest(attrs, Attr(id))))
  {
    var w, v := EncAll(P2pAttribute, attrs), EncAll(P2pAttribute, Rest(attrs, Attr(id)));
    P2pBytes(w);
    P2pBytes(v);
    KeptIs(P2pAttribute, attrs, Attr(id), w);
    ThinnedFrom(e, w, v, |P2P_OUI + w|, id);
  }

  lemma ThinnedFrom(e: seq<Byte>, w: seq<Byte>, v: seq<Byte>, n: nat, id: nat)
    requires e == P2pHead(P2P_HEAD + |w|) + w && n == |w| + 4 < 256
    requires Tiles(P2pAttribute, w, Attr(id)) && Kept(P2pAttribute, w, Attr(id)) == v
    ensures IsP2p(e, id) && Thinned(e, id) == P2pHead(P2P_HEAD + |v|) + v
  {
    ThinnedBytes(e, w, id);
  }

  lemma ThinnedBytes(e: seq<Byte>, w: seq<Byte>, id: nat)
    requires e == P2pHead(P2P_HEAD + |w|) + w && |w| + 4 < 256 && Tiles(P2pAttribute, w, Attr(id))
    ensures IsP2p(e, id)
    ensures var kept := Kept(P2pAttribute, w, Attr(id)); Thinned(e, id) == P2pHead(P2P_HEAD + |kept|) + kept
  {
    Behind(e, w);
    assert 4 + |w| == |e| - 2;
  }

  lemma P2pBytes(w: seq<Byte>)
    ensures Enc(Element, Elem(VENDOR, P2P_OUI + w)) == P2pHead(P2P_HEAD + |w|) + w
  {
    assert [VENDOR, (4 + |w|) % 256] + (P2P_OUI + w) == [VENDOR, (4 + |w|) % 256] + P2P_OUI + w;
  }

  lemma Behind(e: seq<Byte>, w: seq<Byte>)
    requires e == P2pHead(P2P_HEAD + |w|) + w
    ensures e[P2P_HEAD..] == w && e[2..P2P_HEAD] == P2P_OUI && e[0] == VENDOR && e[1] as int == (4 + |w|) % 256
  {
  }

  lemma BssParts(fixed: seq<Byte>, a: seq<Byte>, e: seq<Byte>, c: seq<Byte>, s: seq<Byte>, id: nat)
    requires |fixed| == FIXED && s == fixed + (a + e + c) && IsP2p(e, id)
    requires Tiles(Element, s[FIXED..], P2P) && FirstHit(Element, s[FIXED..], P2P) == |a|
    ensures Editable(s, id) && BssThinned(s, id) == fixed + (a + Thinned(e, id) + c)
  {
    Quarters(fixed, a, e, c, s, P2pAt(s), P2pAt(s) + |e|);
    Regroup(fixed, a, Thinned(e, id), c);
  }

  lemma Quarters(f: seq<Byte>, a: seq<Byte>, e: seq<Byte>, c: seq<Byte>, s: seq<Byte>, base: nat, end: nat)
    requires s == f + (a + e + c) && |e| >= 2 && base == |f| + |a| && end == base + |e|
    ensures s[base..end] == e && s[..base] == f + a && s[end..] == c && s[base + 1] == e[1]
  {
    assert s == (f + a) + e + c;
  }

  lemma Regroup(f: seq<Byte>, a: seq<Byte>, t: seq<Byte>, c: seq<Byte>)
    ensures (f + a) + t + c == f + (a + t + c)
  {
  }
}
