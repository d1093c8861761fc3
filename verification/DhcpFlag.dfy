/** Asking for broadcast DHCP replies (core/rtw_br_ext.c): the flag is set in the request and
    the UDP checksum is corrected without going over the packet again. */
module DhcpFlag {
  // One's complement sums of 16-bit words are sums modulo 65535 (section 3 of RFC 1624).
  const ONES: nat := 0xFFFF

  type Word = w: int | 0 <= w < 0x1_0000

  function Sum(ws: seq<Word>): nat {
    if ws == [] then 0 else Sum(ws[..|ws| - 1]) + ws[|ws| - 1]
  }

  function Complement(w: Word): Word {
    0xFFFF - w
  }

  /** A multiple of 65535, one's complement zero. */
  predicate IsZero(x: int)
    decreases if x < 0 then ONES - x else x
  {
    if x < 0 then IsZero(x + ONES) else x == 0 || (x >= ONES && IsZero(x - ONES))
  }

  /** The receiver's test: all words, the checksum among them, sum to one's complement zero. */
  predicate Valid(ws: seq<Word>) {
    IsZero(Sum(ws))
  }

  lemma {:induction false} IsZeroMeans(x: int)
    ensures IsZero(x) <==> x % ONES == 0
    decreases if x < 0 then ONES - x else x
  {
    if x < 0 { IsZeroMeans(x + ONES); } else if x >= ONES { IsZeroMeans(x - ONES); }
  }

  lemma {:induction false} SumWith(ws: seq<Word>, i: nat, w: Word)
    requires i < |ws|
    ensures Sum(ws[i := w]) == Sum(ws) - ws[i] + w
  {
    var n := |ws| - 1;
    if i == n {
      assert ws[i := w][..n] == ws[..n];
    } else {
      assert ws[i := w][..n] == ws[..n][i := w];
      SumWith(ws[..n], i, w);
    }
  }

  /** The folding loop: ends within 16 bits, keeps the sum modulo 65535, and makes zero only
      of zero. */
  method Fold(sum0: nat) returns (sum: Word)
    ensures sum % ONES == sum0 % ONES
    ensures sum == 0 <==> sum0 == 0
  {
    var s := sum0;
    while s / 0x1_0000 != 0
      invariant s >= 0 && s % ONES == sum0 % ONES && (s == 0 <==> sum0 == 0)
      decreases s
    {
      FoldStep(s);
      s := s % 0x1_0000 + s / 0x1_0000;
    }
    sum := s;
  }

  lemma FoldStep(s: nat)
    requires s >= 0x1_0000
    ensures 0 < s % 0x1_0000 + s / 0x1_0000 < s
    ensures (s % 0x1_0000 + s / 0x1_0000) % ONES == s % ONES
  {
    var h, l := s / 0x1_0000, s % 0x1_0000;
    assert s == h * ONES + (l + h);
    SameRest(l + h, h);
  }

  lemma {:induction false} SameRest(a: nat, k: nat)
    ensures (k * ONES + a) % ONES == a % ONES
  {
    if k > 0 {
      SameRest(a, k - 1);
      assert k * ONES + a == ((k - 1) * ONES + a) + ONES;
    }
  }

  /** sum = ~check & 0xffff; sum += flags; fold; check = ~sum. */
  function Folded(s: nat): Word {
    if s == 0 then 0 else if s % ONES == 0 then 0xFFFF else s % ONES
  }

  /** The method's folding loop computes just that. */
  lemma FoldedIs(s: nat, w: Word)
    requires w % ONES == s % ONES && (w == 0 <==> s == 0)
    ensures w == Folded(s)
  {
  }

  function NewCheck(check: Word, flags: Word): Word {
    Complement(Folded(Complement(check) + flags))
  }

  /** htons(BROADCAST_FLAG) as this host reads it. */
  function Flag(bigEndian: bool): Word {
    if bigEndian then 0x8000 else 0x80
  }

  predicate HasFlag(bigEndian: bool, flags: Word) {
    if bigEndian then flags / 0x8000 % 2 == 1 else flags / 0x80 % 2 == 1
  }

  /** flags |= htons(BROADCAST_FLAG) */
  function WithFlag(bigEndian: bool, flags: Word): (r: Word)
    ensures HasFlag(bigEndian, r)
    ensures forall other :: HasFlag(other, r) <==> HasFlag(other, flags) || other == bigEndian
  {
    if HasFlag(bigEndian, flags) then flags else flags + Flag(bigEndian)
  }

  /** The packet with its flags word (at j) replaced and its checksum (at i) corrected. */
  function Rewritten(ws: seq<Word>, i: nat, j: nat, flags: Word): seq<Word>
    requires i < |ws| && j < |ws|
  {
    ws[j := flags][i := NewCheck(ws[i], flags)]
  }

  function Updated(ws: seq<Word>, i: nat, j: nat, bigEndian: bool): (r: seq<Word>)
    requires i < |ws| && j < |ws|
    ensures |r| == |ws|
  {
    if HasFlag(bigEndian, ws[j]) then ws else Rewritten(ws, i, j, WithFlag(bigEndian, ws[j]))
  }

  /** dhcp_flag_bcast, once the frame is known to be a DHCP request. `ws` are the words the
      UDP checksum covers, pseudo header included. */
  method SetBroadcast(ws: array<Word>, i: nat, j: nat, bigEndian: bool)
    requires i < ws.Length && j < ws.Length && i != j
    modifies ws
    ensures ws[..] == Updated(old(ws[..]), i, j, bigEndian)
  {
    if !HasFlag(bigEndian, ws[j]) {
      ws[j] := WithFlag(bigEndian, ws[j]);
      var start: nat := Complement(ws[i]) + ws[j];
      var sum := Fold(start);
      FoldedIs(start, sum);
      ws[i] := Complement(sum);
    }
  }

  /** The corrected checksum makes up for the word put in, modulo 65535. */
  lemma CheckMoves(check: Word, flags: Word) returns (k: int)
    ensures NewCheck(check, flags) == check - flags + k * ONES
  {
    var s := Complement(check) + flags;
    k := if s == 0 then 0 else if s % ONES == 0 then s / ONES - 1 else s / ONES;
    assert s == s / ONES * ONES + s % ONES;
  }

  lemma CheckVanishes(check: Word, flags: Word)
    ensures NewCheck(check, flags) == 0 <==> check == flags || (check == 0 && flags == 0xFFFF)
  {
    var s := Complement(check) + flags;
    assert s % ONES == 0 <==> s == 0 || s == ONES || s == 2 * ONES;
  }

  lemma {:induction false} Multiple(a: int, b: int, k: int)
    requires b == a + k * ONES
    ensures IsZero(a) <==> IsZero(b)
    decreases if k < 0 then -k else k
  {
    if k > 0 {
      IsZeroMeans(b - ONES);
      IsZeroMeans(b);
      Multiple(a, b - ONES, k - 1);
    } else if k < 0 {
      IsZeroMeans(b + ONES);
      IsZeroMeans(b);
      Multiple(a, b + ONES, k + 1);
    }
  }

  /** What the change does to the checksum sum: it is off by the word that was there. */
  lemma SumAfter(ws: seq<Word>, i: nat, j: nat, flags: Word) returns (k: int, t: seq<Word>)
    requires i < |ws| && j < |ws| && i != j
    ensures t == Rewritten(ws, i, j, flags) && Sum(t) == Sum(ws) - ws[j] + k * ONES
  {
    t := Rewritten(ws, i, j, flags);
    k := CheckMoves(ws[i], flags);
    SumWith(ws, j, flags);
    SumWith(ws[j := flags], i, NewCheck(ws[i], flags));
  }

  /** UDP accepts a packet whose checksum is right or absent, that is, zero. */
  predicate Accepted(ws: seq<Word>, i: nat)
    requires i < |ws|
  {
    ws[i] == 0 || Valid(ws)
  }

  /** A request with a right checksum keeps a right checksum exactly when its flags word was
      zero, as section 2 of RFC 2131 demands of clients. It is still accepted also when the
      corrected checksum happens to come out as zero. */
  lemma ValidStaysValid(ws: seq<Word>, i: nat, j: nat, bigEndian: bool)
    requires i < |ws| && j < |ws| && i != j
    requires !HasFlag(bigEndian, ws[j]) && Valid(ws) && ws[i] != 0
    ensures Valid(Updated(ws, i, j, bigEndian)) <==> ws[j] == 0
    ensures Accepted(Updated(ws, i, j, bigEndian), i) <==> ws[j] == 0 || ws[i] == WithFlag(bigEndian, ws[j])
  {
    var flags := WithFlag(bigEndian, ws[j]);
    var k, t := SumAfter(ws, i, j, flags);
    CheckVanishes(ws[i], flags);
    Multiple(Sum(ws) - ws[j], Sum(t), k);
    Difference(Sum(ws), ws[j]);
  }

  lemma Difference(s: int, w: Word)
    requires IsZero(s) && w < ONES
    ensures IsZero(s - w) <==> w == 0
  {
    var z: int := w;
    IsZeroMeans(s);
    IsZeroMeans(-z);
    Multiple(-z, s - z, s / ONES);
  }

  /** A request sent without a checksum leaves with one, right or wrong. */
  lemma AbsentChecksumAppears(ws: seq<Word>, i: nat, j: nat, bigEndian: bool)
    requires i < |ws| && j < |ws| && i != j && !HasFlag(bigEndian, ws[j]) && ws[i] == 0
    ensures Updated(ws, i, j, bigEndian)[i] == 0 <==> WithFlag(bigEndian, ws[j]) == 0xFFFF
  {
    CheckVanishes(ws[i], WithFlag(bigEndian, ws[j]));
  }

  /** Bit number n. */
  predicate BitSet(w: nat, n: nat) {
    if n == 0 then w % 2 == 1 else BitSet(w / 2, n - 1)
  }

  function Power(n: nat): nat {
    if n == 0 then 1 else 2 * Power(n - 1)
  }

  lemma {:induction false} AddBit(w: nat, m: nat, n: nat)
    requires !BitSet(w, m)
    ensures BitSet(w + Power(m), n) <==> BitSet(w, n) || n == m
  {
    if m == 0 {
      assert (w + 1) / 2 == w / 2;
    } else {
      var p := Power(m - 1);
      assert (w + 2 * p) / 2 == w / 2 + p && (w + 2 * p) % 2 == w % 2;
      if n > 0 { AddBit(w / 2, m - 1, n - 1); }
    }
  }

  /** The two flags are bits 15 and 7. */
  lemma FlagBits(w: Word)
    ensures HasFlag(true, w) <==> BitSet(w, 15)
    ensures HasFlag(false, w) <==> BitSet(w, 7)
    ensures Power(15) == Flag(true) && Power(7) == Flag(false)
  {
    var v := ShiftSeven(w, 0);
    v := ShiftSeven(w, 8);
    var u := ShiftSeven(v, 1);
    assert BitSet(u, 1) <==> BitSet(u / 2, 0);
    assert u / 2 == w / 0x8000;
    PowerSeven(0);
    PowerSeven(7);
    assert Power(15) == 2 * Power(14);
  }

  lemma ShiftSeven(w: nat, n: nat) returns (v: nat)
    ensures v == w / 0x80 && (BitSet(w, n + 7) <==> BitSet(v, n))
  {
    var a := w / 2;
    var b := a / 2;
    var c := b / 2;
    var d := c / 2;
    var e := d / 2;
    var f := e / 2;
    v := f / 2;
    assert BitSet(w, n + 7) <==> BitSet(a, n + 6);
    assert BitSet(a, n + 6) <==> BitSet(b, n + 5);
    assert BitSet(b, n + 5) <==> BitSet(c, n + 4);
    assert BitSet(c, n + 4) <==> BitSet(d, n + 3);
    assert BitSet(d, n + 3) <==> BitSet(e, n + 2);
    assert BitSet(e, n + 2) <==> BitSet(f, n + 1);
    assert BitSet(f, n + 1) <==> BitSet(v, n);
  }

  lemma PowerSeven(n: nat)
    ensures Power(n + 7) == 0x80 * Power(n)
  {
    assert Power(n + 7) == 2 * Power(n + 6);
    assert Power(n + 6) == 2 * Power(n + 5);
    assert Power(n + 5) == 2 * Power(n + 4);
    assert Power(n + 4) == 2 * Power(n + 3);
    assert Power(n + 3) == 2 * Power(n + 2);
    assert Power(n + 2) == 2 * Power(n + 1);
  }

  /** The broadcast bit is on afterwards, the first one on the wire; all others are as they were. */
  lemma OnlyBroadcastSet(ws: seq<Word>, i: nat, j: nat, bigEndian: bool, n: nat)
    requires i < |ws| && j < |ws| && i != j
    ensures BitSet(Updated(ws, i, j, bigEndian)[j], n) <==> BitSet(ws[j], n) || n == if bigEndian then 15 else 7
  {
    FlagBits(ws[j]);
    if !HasFlag(bigEndian, ws[j]) { AddBit(ws[j], if bigEndian then 15 else 7, n); }
  }

  /** Setting the flag again changes nothing. */
  lemma SetOnce(ws: seq<Word>, i: nat, j: nat, bigEndian: bool)
    requires i < |ws| && j < |ws| && i != j
    ensures var u := Updated(ws, i, j, bigEndian);
      && HasFlag(bigEndian, u[j]) && Updated(u, i, j, bigEndian) == u
      && (forall k :: 0 <= k < |ws| && k != i && k != j ==> u[k] == ws[k])
  {
  }
}
