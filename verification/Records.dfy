/** Searching and thinning out a stretch of records, on its bytes and on the records. */
module Records {
  import opened Wrappers
  import opened Bytes
  import opened Tlv

  /** Which records are meant: an id, and possibly the bytes the data must start with. */
  datatype Want = Want(id: nat, oui: Option<seq<Byte>>) {
    function OuiLen(): nat {
      if oui.Some? then |oui.value| else 0
    }

    predicate Matches(e: Elem) {
      e.id == id && (oui.Some? ==> oui.value <= e.data)
    }

    /** A record with the id is long enough to be compared. */
    predicate Comparable(es: seq<Elem>) {
      forall k :: 0 <= k < |es| && es[k].id == id ==> OuiLen() <= |es[k].data|
    }
  }

  // ---- bytes ------------------------------------------------------------------------

  /** The first record of w, header and data. */
  function RecLen(f: Format, w: seq<Byte>): nat
    requires HeaderLen(f) <= |w|
  {
    HeaderLen(f) + LenAt(f, w, 0)
  }

  /** Records tile w exactly, and those with the wanted id can be compared. */
  predicate Tiles(f: Format, w: seq<Byte>, q: Want) {
    w == [] ||
    (&& HeaderLen(f) <= |w| && RecLen(f, w) <= |w|
     && (IdAt(f, w, 0) == q.id ==> HeaderLen(f) + q.OuiLen() <= RecLen(f, w))
     && Tiles(f, w[RecLen(f, w)..], q))
  }

  predicate Hit(f: Format, w: seq<Byte>, q: Want)
    requires w != [] && Tiles(f, w, q)
  {
    IdAt(f, w, 0) == q.id && (q.oui.Some? ==> w[HeaderLen(f)..HeaderLen(f) + q.OuiLen()] == q.oui.value)
  }

  /** Where the first wanted record starts; |w| when there is none. */
  function FirstHit(f: Format, w: seq<Byte>, q: Want): (r: nat)
    requires Tiles(f, w, q)
    ensures r == |w| || r + HeaderLen(f) <= |w|
  {
    if w == [] || Hit(f, w, q) then 0 else RecLen(f, w) + FirstHit(f, w[RecLen(f, w)..], q)
  }

  /** The bytes without the wanted records. */
  function Kept(f: Format, w: seq<Byte>, q: Want): (r: seq<Byte>)
    requires Tiles(f, w, q)
    ensures |r| <= |w|
  {
    if w == [] then []
    else if Hit(f, w, q) then Kept(f, w[RecLen(f, w)..], q)
    else w[..RecLen(f, w)] + Kept(f, w[RecLen(f, w)..], q)
  }

  /** Up to the first wanted record everything is kept. */
  lemma SkipToHit(f: Format, w: seq<Byte>, q: Want, r: nat)
    requires Tiles(f, w, q) && r == FirstHit(f, w, q)
    ensures Tiles(f, w[r..], q)
    ensures r < |w| ==> Hit(f, w[r..], q)
    ensures Kept(f, w, q) == w[..r] + Kept(f, w[r..], q)
    ensures r == |w| ==> Kept(f, w, q) == w
  {
    SkipTo(f, w, q, r, w[..r], w[r..]);
  }

  lemma {:induction false} SkipTo(f: Format, w: seq<Byte>, q: Want, r: nat, pre: seq<Byte>, u: seq<Byte>)
    requires Tiles(f, w, q) && r == FirstHit(f, w, q) && pre == w[..r] && u == w[r..]
    ensures Tiles(f, u, q) && (u != [] ==> Hit(f, u, q))
    ensures Kept(f, w, q) == pre + Kept(f, u, q)
  {
    if w == [] || Hit(f, w, q) {
      assert u == w && pre == [];
    } else {
      var n := RecLen(f, w);
      var v, m := w[n..], r - n;
      Peel(w, n, r, m);
      SkipTo(f, v, q, m, v[..m], u);
      Concat(w[..n], v[..m], Kept(f, u, q));
    }
  }

  lemma Peel(w: seq<Byte>, n: nat, r: nat, m: nat)
    requires n <= r <= |w| && m == r - n
    ensures w[r..] == w[n..][m..] && w[..r] == w[..n] + w[n..][..m]
  {
  }

  lemma KeptAfterHit(f: Format, w: seq<Byte>, q: Want)
    requires w != [] && Tiles(f, w, q) && Hit(f, w, q)
    ensures Kept(f, w, q) == Kept(f, w[RecLen(f, w)..], q)
    ensures |Kept(f, w, q)| < |w|
  {
  }

  // ---- records ----------------------------------------------------------------------

  function Rest(es: seq<Elem>, q: Want): seq<Elem> {
    if es == [] then []
    else if q.Matches(es[0]) then Rest(es[1..], q)
    else [es[0]] + Rest(es[1..], q)
  }

  /** The first record meant. */
  function Find(es: seq<Elem>, q: Want): (r: nat)
    ensures r <= |es|
    ensures r < |es| ==> q.Matches(es[r])
    ensures forall j :: 0 <= j < r ==> !q.Matches(es[j])
  {
    if es == [] || q.Matches(es[0]) then 0 else 1 + Find(es[1..], q)
  }

  /** What the first record's bytes say. */
  lemma HeadIs(f: Format, es: seq<Elem>, q: Want, w: seq<Byte>)
    requires es != [] && AllFit(f, es) && w == EncAll(f, es)
    ensures HeaderLen(f) <= |w| && RecLen(f, w) == HeaderLen(f) + |es[0].data| == |Enc(f, es[0])| <= |w|
    ensures w[..RecLen(f, w)] == Enc(f, es[0]) && w[RecLen(f, w)..] == EncAll(f, es[1..])
    ensures IdAt(f, w, 0) == es[0].id && w[HeaderLen(f)..RecLen(f, w)] == es[0].data
    ensures EncAll(f, es) == Enc(f, es[0]) + EncAll(f, es[1..])
  {
    var e, rest := Enc(f, es[0]), EncAll(f, es[1..]);
    FirstOf(f, es);
    Halves(w, e, rest);
    HeaderReads(f, es[0], w, 0);
  }

  lemma FirstOf(f: Format, es: seq<Elem>)
    requires es != []
    ensures EncAll(f, es) == Enc(f, es[0]) + EncAll(f, es[1..])
  {
    assert es == [es[0]] + es[1..];
    EncAppend(f, [es[0]], es[1..]);
    EncOne(f, es[0]);
  }

  lemma Halves(w: seq<Byte>, a: seq<Byte>, b: seq<Byte>)
    requires w == a + b
    ensures w[..|a|] == a && w[0..|a|] == a && w[|a|..] == b
  {
  }

  lemma {:induction false} BytesTile(f: Format, es: seq<Elem>, q: Want, w: seq<Byte>)
    requires AllFit(f, es) && q.Comparable(es) && w == EncAll(f, es)
    ensures Tiles(f, w, q)
    ensures es != [] ==> (Hit(f, w, q) <==> q.Matches(es[0]))
  {
    if es != [] {
      HeadIs(f, es, q, w);
      var n, rest := RecLen(f, w), es[1..];
      assert forall k :: 0 <= k < |rest| ==> rest[k] == es[k + 1];
      BytesTile(f, rest, q, w[n..]);
      OneTile(f, w, q, n, es[0]);
    }
  }

  lemma OneTile(f: Format, w: seq<Byte>, q: Want, n: nat, e: Elem)
    requires HeaderLen(f) <= |w| && n == RecLen(f, w) <= |w| && Tiles(f, w[n..], q)
    requires IdAt(f, w, 0) == e.id && w[HeaderLen(f)..n] == e.data && (e.id == q.id ==> q.OuiLen() <= |e.data|)
    ensures Tiles(f, w, q) && (Hit(f, w, q) <==> q.Matches(e))
  {
    if e.id == q.id { OuiReads(w, HeaderLen(f), n, e.data, HeaderLen(f) + q.OuiLen(), q); }
  }

  lemma OuiReads(w: seq<Byte>, h: nat, n: nat, d: seq<Byte>, m: nat, q: Want)
    requires h <= n <= |w| && w[h..n] == d && q.OuiLen() <= |d| && m == h + q.OuiLen()
    ensures q.oui.Some? ==> (w[h..m] == q.oui.value <==> q.oui.value <= d)
  {
    assert w[h..n][..q.OuiLen()] == w[h..m];
  }

  lemma {:induction false} FirstHitIs(f: Format, es: seq<Elem>, q: Want, w: seq<Byte>)
    requires AllFit(f, es) && q.Comparable(es) && w == EncAll(f, es)
    ensures Tiles(f, w, q) && FirstHit(f, w, q) == Pos(f, es, Find(es, q))
  {
    BytesTile(f, es, q, w);
    if es != [] && !q.Matches(es[0]) {
      HeadIs(f, es, q, w);
      FirstHitIs(f, es[1..], q, w[RecLen(f, w)..]);
      PosTail(f, es, Find(es[1..], q), Find(es, q));
    }
  }

  lemma {:induction false} PosTail(f: Format, es: seq<Elem>, k: nat, k1: nat)
    requires es != [] && k < |es| && k1 == k + 1
    ensures Pos(f, es, k1) == HeaderLen(f) + |es[0].data| + Pos(f, es[1..], k)
  {
    if k > 0 { PosTail(f, es, k - 1, k); }
  }

  /** Thinning out the bytes is thinning out the records. */
  lemma {:induction false} KeptIs(f: Format, es: seq<Elem>, q: Want, w: seq<Byte>)
    requires AllFit(f, es) && q.Comparable(es) && w == EncAll(f, es)
    ensures Tiles(f, w, q) && Kept(f, w, q) == EncAll(f, Rest(es, q))
  {
    BytesTile(f, es, q, w);
    if es != [] {
      HeadIs(f, es, q, w);
      KeptIs(f, es[1..], q, w[RecLen(f, w)..]);
      if !q.Matches(es[0]) {
        EncAppend(f, [es[0]], Rest(es[1..], q));
        EncOne(f, es[0]);
      }
    }
  }

  /** The record has the id and starts with the OUI, if one is given. */
  predicate Meant(e: Elem, q: Want) {
    e.id == q.id && match q.oui case None => true case Some(o) => |o| <= |e.data| && e.data[..|o|] == o
  }

  /** `at` are the positions of the records not meant, from position b of es on and in order, and
      rest is what stands there. */
  ghost predicate Places(at: seq<nat>, es: seq<Elem>, b: nat, rest: seq<Elem>, q: Want) {
    && |at| == |rest| && b <= |es|
    && (forall i, j :: 0 <= i < j < |at| ==> at[i] < at[j])
    && (forall i :: 0 <= i < |at| ==> b <= at[i] < |es| && rest[i] == es[at[i]])
    && (forall k: nat :: k in at <==> b <= k < |es| && !Meant(es[k], q))
  }

  /** Thinning out keeps exactly the records not meant, in order. */
  lemma RestHolds(es: seq<Elem>, q: Want) returns (at: seq<nat>)
    ensures Places(at, es, 0, Rest(es, q), q)
  {
    assert es[0..] == es;
    at := RestPlaces(es, q, 0);
  }

  lemma {:induction false} RestPlaces(es: seq<Elem>, q: Want, b: nat) returns (at: seq<nat>)
    requires b <= |es|
    ensures Places(at, es, b, Rest(es[b..], q), q)
    decreases |es| - b
  {
    at := [];
    if b < |es| {
      var next, w, tail := b + 1, es[b..], es[b + 1..];
      at := RestPlaces(es, q, next);
      assert w[0] == es[b] && w[1..] == tail;
      if !q.Matches(es[b]) { at := OneMore(es, q, b, next, at, Rest(tail, q)); }
    }
  }

  lemma OneMore(es: seq<Elem>, q: Want, b: nat, next: nat, t: seq<nat>, rest: seq<Elem>) returns (at: seq<nat>)
    requires next == b + 1 && b < |es| && Places(t, es, next, rest, q) && !q.Matches(es[b])
    ensures Places(at, es, b, [es[b]] + rest, q)
  {
    at := [b] + t;
  }
}
