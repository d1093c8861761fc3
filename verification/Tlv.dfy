/** Lists of id-length-value records as they lie in a buffer. The driver walks three layouts:
    802.11 information elements, PPPoE tags and P2P attributes. */
module Tlv {
  import opened Bytes

  datatype Format = Element | PppoeTag | P2pAttribute

  datatype Elem = Elem(id: nat, data: seq<Byte>)

  function HeaderLen(f: Format): nat {
    match f case Element => 2 case PppoeTag => 4 case P2pAttribute => 3
  }

  function Header(f: Format, id: nat, n: nat): (r: seq<Byte>)
    ensures |r| == HeaderLen(f)
  {
    match f
    case Element => [id % 256, n % 256]
    case PppoeTag => ToBe16(id) + ToBe16(n)
    case P2pAttribute => [id % 256] + ToLe16(n)
  }

  /** The record's id and length fit the header fields. */
  predicate Fits(f: Format, e: Elem) {
    match f
    case Element => e.id < 256 && |e.data| < 256
    case PppoeTag => e.id < 65536 && |e.data| < 65536
    case P2pAttribute => e.id < 256 && |e.data| < 65536
  }

  function IdAt(f: Format, s: seq<Byte>, i: nat): nat
    requires i + HeaderLen(f) <= |s|
  {
    match f case Element => s[i] case PppoeTag => Be16(s, i) case P2pAttribute => s[i]
  }

  function LenAt(f: Format, s: seq<Byte>, i: nat): nat
    requires i + HeaderLen(f) <= |s|
  {
    match f case Element => s[i + 1] case PppoeTag => Be16(s, i + 2) case P2pAttribute => Le16(s, i + 1)
  }

  function Enc(f: Format, e: Elem): (r: seq<Byte>)
    ensures |r| == HeaderLen(f) + |e.data|
  {
    Header(f, e.id, |e.data|) + e.data
  }

  /** Where record k starts, relative to record 0. */
  function Pos(f: Format, es: seq<Elem>, k: nat): nat
    requires k <= |es|
  {
    if k == 0 then 0 else Pos(f, es, k - 1) + HeaderLen(f) + |es[k - 1].data|
  }

  /** The first k records in a row. */
  function EncTo(f: Format, es: seq<Elem>, k: nat): (r: seq<Byte>)
    requires k <= |es|
    ensures |r| == Pos(f, es, k)
  {
    if k == 0 then [] else EncTo(f, es, k - 1) + Enc(f, es[k - 1])
  }

  function Size(f: Format, es: seq<Elem>): nat {
    Pos(f, es, |es|)
  }

  function EncAll(f: Format, es: seq<Elem>): (r: seq<Byte>)
    ensures |r| == Size(f, es)
  {
    EncTo(f, es, |es|)
  }

  predicate AllFit(f: Format, es: seq<Elem>) {
    forall k :: 0 <= k < |es| ==> Fits(f, es[k])
  }

  /** The buffer holds the records from position `base` on. */
  predicate Holds(f: Format, s: seq<Byte>, base: nat, es: seq<Elem>) {
    base + Size(f, es) <= |s| && s[base..base + Size(f, es)] == EncAll(f, es) && AllFit(f, es)
  }

  lemma {:induction false} EncSame(f: Format, a: seq<Elem>, b: seq<Elem>, k: nat)
    requires k <= |a| && k <= |b| && a[..k] == b[..k]
    ensures EncTo(f, a, k) == EncTo(f, b, k) && Pos(f, a, k) == Pos(f, b, k)
  {
    if k > 0 {
      assert a[..k - 1] == a[..k][..k - 1] && b[..k - 1] == b[..k][..k - 1];
      assert a[k - 1] == a[..k][k - 1] && b[k - 1] == b[..k][k - 1];
      EncSame(f, a, b, k - 1);
    }
  }

  lemma {:induction false} EncAppendTo(f: Format, c: seq<Elem>, n: nat, b: seq<Elem>, j: nat, k: nat)
    requires k == n + j && j <= |b| && n + |b| == |c| && c[n..] == b
    ensures EncTo(f, c, k) == EncTo(f, c, n) + EncTo(f, b, j)
  {
    if j > 0 {
      var l, h := j - 1, k - 1;
      EncAppendTo(f, c, n, b, l, h);
      assert c[h] == b[l] by { assert c[n..][l] == c[h]; }
      EncNext(f, c, h, k);
      EncNext(f, b, l, j);
      Concat(EncTo(f, c, n), EncTo(f, b, l), Enc(f, b[l]));
    }
  }

  lemma EncNext(f: Format, es: seq<Elem>, j: nat, k: nat)
    requires k == j + 1 <= |es|
    ensures EncTo(f, es, k) == EncTo(f, es, j) + Enc(f, es[j])
  {
  }

  lemma Concat(x: seq<Byte>, y: seq<Byte>, z: seq<Byte>)
    ensures (x + y) + z == x + (y + z)
  {
  }

  lemma EncAppend(f: Format, a: seq<Elem>, b: seq<Elem>)
    ensures EncAll(f, a + b) == EncAll(f, a) + EncAll(f, b)
    ensures Size(f, a + b) == Size(f, a) + Size(f, b)
  {
    EncSplit(f, a + b, a, b);
  }

  lemma EncOne(f: Format, e: Elem)
    ensures EncAll(f, [e]) == Enc(f, e)
  {
    assert EncTo(f, [e], 0) == [];
  }

  /** A list cut at k. */
  lemma EncCut(f: Format, es: seq<Elem>, k: nat)
    requires k <= |es|
    ensures EncAll(f, es) == EncTo(f, es, k) + EncAll(f, es[k..]) && EncAll(f, es[..k]) == EncTo(f, es, k)
  {
    assert es == es[..k] + es[k..];
    EncSplit(f, es, es[..k], es[k..]);
  }

  lemma EncSplit(f: Format, es: seq<Elem>, a: seq<Elem>, b: seq<Elem>)
    requires es == a + b
    ensures EncAll(f, es) == EncTo(f, es, |a|) + EncAll(f, b) && EncAll(f, a) == EncTo(f, es, |a|)
  {
    assert es[..|a|] == a;
    EncSame(f, es, a, |a|);
    EncAppendTo(f, es, |a|, b, |b|, |es|);
  }

  /** Record k and what surrounds it. */
  lemma Around(f: Format, es: seq<Elem>, k: nat)
    requires k < |es|
    ensures EncAll(f, es) == EncTo(f, es, k) + Enc(f, es[k]) + EncAll(f, es[k + 1..])
    ensures Pos(f, es, k + 1) == Pos(f, es, k) + HeaderLen(f) + |es[k].data| <= Size(f, es)
  {
    EncCut(f, es, k + 1);
  }

  lemma HeaderReads(f: Format, e: Elem, s: seq<Byte>, i: nat)
    requires Fits(f, e) && i + |Enc(f, e)| <= |s| && s[i..i + |Enc(f, e)|] == Enc(f, e)
    ensures IdAt(f, s, i) == e.id && LenAt(f, s, i) == |e.data|
    ensures s[i + HeaderLen(f)..i + HeaderLen(f) + |e.data|] == e.data
  {
    var h, n := Header(f, e.id, |e.data|), HeaderLen(f);
    var r := Enc(f, e);
    assert r[..n] == h && r[n..] == e.data;
    assert s[i..i + n] == h by { assert s[i..i + |r|][..n] == s[i..i + n]; }
    assert s[i + n..i + |r|] == e.data by { assert s[i..i + |r|][n..] == s[i + n..i + |r|]; }
    HeaderBytes(f, e.id, |e.data|, s, i);
  }

  lemma HeaderBytes(f: Format, id: nat, len: nat, s: seq<Byte>, i: nat)
    requires i + HeaderLen(f) <= |s| && s[i..i + HeaderLen(f)] == Header(f, id, len)
    requires len < (if f == Element then 256 else 65536) && id < (if f == PppoeTag then 65536 else 256)
    ensures IdAt(f, s, i) == id && LenAt(f, s, i) == len
  {
    var t := s[i..i + HeaderLen(f)];
    assert t[0] == s[i] && t[1] == s[i + 1];
    if f != Element { assert t[2] == s[i + 2]; }
    if f == PppoeTag { assert t[3] == s[i + 3]; }
  }

  /** What a walk over the buffer reads at record k. */
  lemma ReadAt(f: Format, s: seq<Byte>, base: nat, es: seq<Elem>, k: nat) returns (i: nat)
    requires Holds(f, s, base, es) && k < |es|
    ensures i == base + Pos(f, es, k)
    ensures base + Pos(f, es, k + 1) == i + HeaderLen(f) + |es[k].data| <= base + Size(f, es)
    ensures IdAt(f, s, i) == es[k].id && LenAt(f, s, i) == |es[k].data|
    ensures s[i + HeaderLen(f)..i + HeaderLen(f) + |es[k].data|] == es[k].data
  {
    i := base + Pos(f, es, k);
    RecordAt(f, s, base, es, k, i);
    HeaderReads(f, es[k], s, i);
  }

  lemma RecordAt(f: Format, s: seq<Byte>, base: nat, es: seq<Elem>, k: nat, i: nat)
    requires Holds(f, s, base, es) && k < |es| && i == base + Pos(f, es, k)
    ensures base + Pos(f, es, k + 1) == i + HeaderLen(f) + |es[k].data| <= base + Size(f, es) <= |s|
    ensures Fits(f, es[k]) && s[i..i + |Enc(f, es[k])|] == Enc(f, es[k])
  {
    Around(f, es, k);
    var a, b, c := EncTo(f, es, k), Enc(f, es[k]), EncAll(f, es[k + 1..]);
    Slice(s, base, base + Size(f, es), EncAll(f, es), a, b, c, i, i + |b|);
  }

  lemma Slice(s: seq<Byte>, base: nat, end: nat,
              all: seq<Byte>, a: seq<Byte>, b: seq<Byte>, c: seq<Byte>, i: nat, j: nat)
    requires end == base + |all| <= |s| && s[base..end] == all && all == a + b + c
    requires i == base + |a| && j == i + |b|
    ensures s[i..j] == b
  {
    var w := s[base..end];
    assert w[|a|..|a| + |b|] == b;
    forall k | 0 <= k < |b| ensures s[i + k] == b[k] {
      assert w[|a| + k] == s[base + (|a| + k)];
    }
  }

  /** The first record from k on that `m` accepts; |es| when there is none. */
  function First(es: seq<Elem>, m: Elem -> bool, k: nat): (r: nat)
    requires k <= |es|
    ensures k <= r <= |es|
    ensures r < |es| ==> m(es[r])
    ensures forall j :: k <= j < r ==> !m(es[j])
    decreases |es| - k
  {
    if k == |es| || m(es[k]) then k else First(es, m, k + 1)
  }

  lemma FirstStep(es: seq<Elem>, m: Elem -> bool, k: nat)
    requires k < |es|
    ensures First(es, m, k) == if m(es[k]) then k else First(es, m, k + 1)
  {
  }

  function Without(es: seq<Elem>, k: nat): seq<Elem>
    requires k < |es|
  {
    es[..k] + es[k + 1..]
  }

  lemma EncWithout(f: Format, es: seq<Elem>, k: nat)
    requires k < |es|
    ensures EncAll(f, Without(es, k)) == EncTo(f, es, k) + EncAll(f, es[k + 1..])
  {
    EncCut(f, es, k);
    EncAppend(f, es[..k], es[k + 1..]);
  }

  lemma EncReplaced(f: Format, es: seq<Elem>, k: nat, e: Elem)
    requires k < |es|
    ensures EncAll(f, es[k := e]) == EncTo(f, es, k) + Enc(f, e) + EncAll(f, es[k + 1..])
  {
    var t := es[k := e];
    Around(f, t, k);
    assert t[..k] == es[..k] && t[k + 1..] == es[k + 1..];
    EncSame(f, t, es, k);
  }

  // ---- walks over the raw bytes -----------------------------------------------------

  /** The records between cur and end tile that stretch exactly. */
  predicate Walkable(f: Format, s: seq<Byte>, cur: nat, end: nat)
    decreases end - cur
  {
    && cur <= end <= |s|
    && (cur < end ==>
          && cur + HeaderLen(f) <= end && cur + HeaderLen(f) + LenAt(f, s, cur) <= end
          && Walkable(f, s, cur + HeaderLen(f) + LenAt(f, s, cur), end))
  }

  /** Where the first record with this id starts; -1 when there is none. */
  function Scan(f: Format, s: seq<Byte>, cur: nat, end: nat, id: nat): (r: int)
    requires Walkable(f, s, cur, end)
    ensures r == -1 || (cur <= r && r + HeaderLen(f) <= end && IdAt(f, s, r) == id
                        && r + HeaderLen(f) + LenAt(f, s, r) <= end)
    decreases end - cur
  {
    if cur >= end then -1
    else if IdAt(f, s, cur) == id then cur
    else Scan(f, s, cur + HeaderLen(f) + LenAt(f, s, cur), end, id)
  }

  function OfType(id: nat): Elem -> bool {
    (e: Elem) => e.id == id
  }

  lemma {:induction false} HoldsWalks(f: Format, s: seq<Byte>, base: nat, es: seq<Elem>, k: nat, cur: nat, end: nat)
    requires Holds(f, s, base, es) && k <= |es| && cur == base + Pos(f, es, k) && end == base + Size(f, es)
    ensures Walkable(f, s, cur, end)
    decreases |es| - k
  {
    if k < |es| {
      var i := ReadAt(f, s, base, es, k);
      HoldsWalks(f, s, base, es, k + 1, base + Pos(f, es, k + 1), end);
    }
  }

  /** One step of the walk. */
  lemma ScanStep(f: Format, s: seq<Byte>, cur: nat, next: nat, end: nat, id: nat)
    requires Walkable(f, s, cur, end) && cur < end && next == cur + HeaderLen(f) + LenAt(f, s, cur)
    ensures Walkable(f, s, next, end)
    ensures Scan(f, s, cur, end, id) == if IdAt(f, s, cur) == id then cur else Scan(f, s, next, end, id)
  {
  }

  lemma ScanAt(f: Format, s: seq<Byte>, base: nat, es: seq<Elem>, id: nat, k: nat, cur: nat, end: nat)
    returns (next: nat)
    requires Holds(f, s, base, es) && k < |es| && cur == base + Pos(f, es, k) && end == base + Size(f, es)
    requires Walkable(f, s, cur, end)
    ensures next == base + Pos(f, es, k + 1) && Walkable(f, s, next, end)
    ensures Scan(f, s, cur, end, id) == if es[k].id == id then cur else Scan(f, s, next, end, id)
  {
    var i := ReadAt(f, s, base, es, k);
    next := base + Pos(f, es, k + 1);
    ScanStep(f, s, cur, next, end, id);
  }

  /** The walk over the bytes finds the first record of that type. */
  lemma {:induction false} ScanFinds(f: Format, s: seq<Byte>, base: nat, es: seq<Elem>, id: nat, k: nat,
                                     cur: nat, end: nat)
    requires Holds(f, s, base, es) && k <= |es| && cur == base + Pos(f, es, k) && end == base + Size(f, es)
    requires Walkable(f, s, cur, end)
    ensures var r := First(es, OfType(id), k);
      Scan(f, s, cur, end, id) == if r == |es| then -1 else base + Pos(f, es, r)
    decreases |es| - k
  {
    if k < |es| {
      var next := ScanAt(f, s, base, es, id, k, cur, end);
      FirstStep(es, OfType(id), k);
      if es[k].id != id { ScanFinds(f, s, base, es, id, k + 1, next, end); }
    }
  }
}
