/** Single elements of the beacon put in and taken out again (core/rtw_ap.c). The elements are
    kept in the order of their ids. */
module BeaconIe {
  import opened Wrappers
  import opened Bytes
  import opened Tlv
  import opened Records
  import opened InfoElements

  function Id(index: nat): Want {
    Want(index, None)
  }

  // ---- bytes ------------------------------------------------------------------------

  /** Where the first element with this id or a greater one starts. */
  function Slot(w: seq<Byte>, index: nat): (r: nat)
    requires Tiles(Element, w, Id(index))
    ensures r == |w| || r + 2 <= |w|
  {
    if w == [] || w[0] as nat >= index then 0
    else RecLen(Element, w) + Slot(w[RecLen(Element, w)..], index)
  }

  /** The length of the element in front of the slot; `before` when there is none. */
  function LenBefore(w: seq<Byte>, index: nat, before: nat): nat
    requires Tiles(Element, w, Id(index))
    decreases |w|
  {
    if w == [] || w[0] as nat >= index then before
    else LenBefore(w[RecLen(Element, w)..], index, w[1])
  }

  /** The element found there has the id itself. */
  predicate Occupied(w: seq<Byte>, index: nat)
    requires Tiles(Element, w, Id(index))
  {
    Slot(w, index) < |w| && w[Slot(w, index)] as nat == index
  }

  /** rtw_add_bcn_ie writes through pointers it sets only when it has passed or met a non-empty
      element. */
  predicate HasAnchor(w: seq<Byte>, index: nat)
    requires Tiles(Element, w, Id(index))
  {
    if Occupied(w, index) then w[Slot(w, index) + 1] > 0 else LenBefore(w, index, 0) > 0
  }

  /** `ie` in place of the bytes from g to `behind`. */
  function Between(w: seq<Byte>, g: nat, behind: nat, ie: seq<Byte>): seq<Byte>
    requires g <= behind <= |w|
  {
    w[..g] + ie + w[behind..]
  }

  function Added(w: seq<Byte>, index: Byte, data: seq<Byte>): seq<Byte>
    requires Tiles(Element, w, Id(index)) && |data| < 256
  {
    var g := Slot(w, index);
    SlotFits(w, index, g);
    Between(w, g, if Occupied(w, index) then g + 2 + w[g + 1] as int else g, [index, |data|] + data)
  }

  function EndOf(w: seq<Byte>, r: nat): nat
    requires r + 2 <= |w|
  {
    r + 2 + w[r + 1] as int
  }

  function Removed(w: seq<Byte>, index: Byte): seq<Byte>
    requires Tiles(Element, w, Id(index))
  {
    var r := FirstHit(Element, w, Id(index));
    HitIn(w, index, r);
    if r < |w| && w[r + 1] > 0 then Between(w, r, EndOf(w, r), []) else w
  }

  lemma {:induction false} SlotFits(w: seq<Byte>, index: nat, g: nat)
    requires Tiles(Element, w, Id(index)) && g == Slot(w, index)
    ensures g < |w| ==> g + 2 + w[g + 1] as int <= |w|
  {
    if w != [] && w[0] as nat < index {
      var n := RecLen(Element, w);
      SlotFits(w[n..], index, g - n);
    }
  }

  lemma HitIn(w: seq<Byte>, index: nat, r: nat)
    requires Tiles(Element, w, Id(index)) && r == FirstHit(Element, w, Id(index))
    ensures r < |w| ==> r + 2 + w[r + 1] as int <= |w|
  {
    SkipToHit(Element, w, Id(index), r);
    if r < |w| { assert w[r..][1] == w[r + 1]; }
  }

  // ---- the code -----------------------------------------------------------------------

  /** The search of rtw_add_bcn_ie: the slot, the last element passed or met, its length. */
  method FindSlot(bss: Bss, index: Byte) returns (slot: nat, bmatch: bool, p: int, len: nat)
    requires bss.Valid() && Tiles(Element, bss.Contents()[FIXED..], Id(index))
    ensures var w := bss.Contents()[FIXED..]; var g := Slot(w, index);
      && slot == FIXED + g && bmatch == Occupied(w, index)
      && (bmatch ==> p == slot && len == w[g + 1] as int)
      && (!bmatch ==> len == LenBefore(w, index, 0) && (len > 0 ==> p >= 0 && p + 2 + len == slot))
  {
    ghost var w0, w := bss.Contents()[FIXED..], bss.Contents()[FIXED..];
    slot, bmatch, p, len := FIXED, false, -1, 0;
    while slot < bss.ieLength
      invariant FIXED <= slot <= bss.ieLength && w0 == bss.Contents()[FIXED..] && w == bss.ies[slot..bss.ieLength]
      invariant Tiles(Element, w, Id(index)) && !bmatch
      invariant Slot(w0, index) == slot - FIXED + Slot(w, index)
      invariant LenBefore(w0, index, 0) == LenBefore(w, index, len)
      invariant len > 0 ==> p >= 0 && p + 2 + len == slot
    {
      if bss.ies[slot] > index { return; }
      if bss.ies[slot] == index {
        return slot, true, slot, bss.ies[slot + 1];
      }
      ghost var n := RecLen(Element, w);
      assert bss.ies[slot + n..bss.ieLength] == w[n..];
      w := w[n..];
      p, len := slot, bss.ies[slot + 1];
      slot := slot + (len + 2);
    }
  }

  /** Where rtw_add_bcn_ie writes, and what it keeps behind. */
  method Anchor(bss: Bss, index: Byte) returns (dst: nat, behind: nat)
    requires bss.Valid()
    requires var w := bss.Contents()[FIXED..]; Tiles(Element, w, Id(index)) && HasAnchor(w, index)
    ensures var w := bss.Contents()[FIXED..]; var g := Slot(w, index);
      && dst == FIXED + g && dst <= behind <= bss.ieLength
      && behind == if Occupied(w, index) then dst + 2 + w[g + 1] as int else dst
  {
    var slot, bmatch, p, len := FindSlot(bss, index);
    SlotFits(bss.Contents()[FIXED..], index, slot - FIXED);
    behind := p + 2 + len;
    dst := if bmatch then p else p + 2 + len;
  }

  /** rtw_add_bcn_ie */
  method AddBcnIe(bss: Bss, index: Byte, data: seq<Byte>)
    requires bss.Valid() && |data| < 256
    requires var w := bss.Contents()[FIXED..];
      Tiles(Element, w, Id(index)) && HasAnchor(w, index) && FIXED + |Added(w, index, data)| <= bss.ies.Length
    modifies bss, bss.ies
    ensures bss.Valid()
    ensures bss.Contents() == old(bss.Contents()[..FIXED]) + Added(old(bss.Contents()[FIXED..]), index, data)
  {
    ghost var w := bss.Contents()[FIXED..];
    ghost var g := Slot(w, index);
    SlotFits(w, index, g);
    var dst, behind := Anchor(bss, index);
    Splice(bss, dst, behind, [index, |data|] + data, g, if Occupied(w, index) then g + 2 + w[g + 1] as int else g);
  }

  /** Backs up what lies from `behind` on, and writes the new element and the backup at dst. */
  method Splice(bss: Bss, dst: nat, behind: nat, ie: seq<Byte>, ghost g: nat, ghost h: nat)
    requires bss.Valid() && FIXED <= dst <= behind <= bss.ieLength && g == dst - FIXED && h == behind - FIXED
    requires dst + |ie| + (bss.ieLength - behind) <= bss.ies.Length
    modifies bss, bss.ies
    ensures bss.Valid()
    ensures h <= |old(bss.Contents()[FIXED..])|
    ensures bss.Contents() == old(bss.Contents()[..FIXED]) + Between(old(bss.Contents()[FIXED..]), g, h, ie)
  {
    ghost var s := bss.Contents();
    var rest := bss.ies[behind..bss.ieLength];
    Put(bss, dst, ie, rest);
    Spliced(s, s[FIXED..], dst, behind, g, h, ie, rest);
  }

  /** The new element and the remainder written from `dst` on. */
  method Put(bss: Bss, dst: nat, ie: seq<Byte>, rest: seq<Byte>)
    requires bss.Valid() && FIXED <= dst <= bss.ieLength && dst + |ie| + |rest| <= bss.ies.Length
    modifies bss, bss.ies
    ensures bss.Valid() && bss.Contents() == old(bss.Contents())[..dst] + ie + rest
  {
    ghost var s := bss.ies[..];
    Store(bss.ies, dst, ie);
    Store(bss.ies, dst + |ie|, rest);
    bss.ieLength := dst + |ie| + |rest|;
    StoredTwice(s, dst, ie, rest);
  }

  lemma StoredTwice(s: seq<Byte>, dst: nat, a: seq<Byte>, b: seq<Byte>)
    requires dst + |a| + |b| <= |s|
    ensures Patched(Patched(s, dst, a), dst + |a|, b)[..dst + |a| + |b|] == s[..dst] + a + b
  {
  }

  lemma Spliced(s: seq<Byte>, w: seq<Byte>, p: nat, behind: nat, g: nat, h: nat, ie: seq<Byte>, rest: seq<Byte>)
    requires FIXED <= p <= behind <= |s| && w == s[FIXED..] && rest == s[behind..]
    requires g == p - FIXED && h == behind - FIXED
    ensures s[..p] + ie + rest == s[..FIXED] + Between(w, g, h, ie)
  {
    var f := s[..FIXED];
    assert s == f + w;
    assert s[..p] == f + w[..g] && rest == w[h..];
    assert (f + w[..g]) + ie + w[h..] == f + (w[..g] + ie + w[h..]);
  }

  /** rtw_remove_bcn_ie */
  method RemoveBcnIe(bss: Bss, index: Byte)
    requires bss.Valid() && Tiles(Element, bss.Contents()[FIXED..], Id(index))
    modifies bss, bss.ies
    ensures bss.Valid()
    ensures bss.Contents() == old(bss.Contents()[..FIXED]) + Removed(old(bss.Contents()[FIXED..]), index)
  {
    ghost var w := bss.Contents()[FIXED..];
    ghost var r, h := RemovedIs(w, index);
    Rejoin(bss.Contents());
    var p, behind := FindIe(bss, index);
    if p < 0 || behind == p + 2 { return; }
    Splice(bss, p, behind, [], r, h);
  }

  lemma RemovedIs(w: seq<Byte>, index: Byte) returns (r: nat, h: nat)
    requires Tiles(Element, w, Id(index))
    ensures r == FirstHit(Element, w, Id(index)) && (r < |w| ==> h == r + 2 + w[r + 1] as int <= |w|)
    ensures Removed(w, index) == if r < |w| && w[r + 1] > 0 then Between(w, r, h, []) else w
  {
    r := FirstHit(Element, w, Id(index));
    HitIn(w, index, r);
    h := if r < |w| then EndOf(w, r) else r;
  }

  lemma Rejoin(s: seq<Byte>)
    requires FIXED <= |s|
    ensures s == s[..FIXED] + s[FIXED..]
  {
  }

  /** The first element with the id, and where it ends. */
  method FindIe(bss: Bss, index: Byte) returns (p: int, behind: int)
    requires bss.Valid() && Tiles(Element, bss.Contents()[FIXED..], Id(index))
    ensures var w := bss.Contents()[FIXED..]; var r := FirstHit(Element, w, Id(index));
      && p == (if r == |w| then -1 else FIXED + r)
      && (r < |w| ==> p + 2 <= behind <= bss.ieLength && behind == p + 2 + w[r + 1] as int)
  {
    ghost var w := bss.Contents()[FIXED..];
    assert bss.ies[FIXED..bss.ieLength] == w;
    HitIn(w, index, FirstHit(Element, w, Id(index)));
    var len;
    p, len := GetIe(bss.ies, FIXED, bss.ieLength, Id(index));
    behind := p + len;
  }

  // ---- elements -----------------------------------------------------------------------

  /** The first element with this id or a greater one. */
  function SlotOf(es: seq<Elem>, index: nat): (k: nat)
    ensures k <= |es|
    ensures forall j :: 0 <= j < k ==> es[j].id < index
    ensures k < |es| ==> es[k].id >= index
  {
    if es == [] || es[0].id >= index then 0 else 1 + SlotOf(es[1..], index)
  }

  function AddedTo(es: seq<Elem>, e: Elem): seq<Elem> {
    var k := SlotOf(es, e.id);
    if k < |es| && es[k].id == e.id then es[k := e] else es[..k] + [e] + es[k..]
  }

  function RemovedFrom(es: seq<Elem>, index: nat): seq<Elem> {
    var k := Find(es, Id(index));
    if k < |es| && es[k].data != [] then Without(es, k) else es
  }

  predicate Sorted(es: seq<Elem>) {
    forall i, j :: 0 <= i < j < |es| ==> es[i].id <= es[j].id
  }

  lemma InsertedAt(es: seq<Elem>, k: nat, e: Elem, t: seq<Elem>)
    requires k <= |es| && t == es[..k] + [e] + es[k..]
    ensures |t| == |es| + 1 && t[k] == e && Without(t, k) == es
    ensures forall j {:trigger t[j]} :: 0 <= j < |t| && j != k ==> t[j] == if j < k then es[j] else es[j - 1]
  {
    assert t[..k] == es[..k] && t[k + 1..] == es[k..];
    assert es[..k] + es[k..] == es;
  }

  /** The list stays sorted; the element put in replaces the first of its id, if any, and comes
      at its place otherwise; all others stay. */
  lemma AddedStaysSorted(es: seq<Elem>, e: Elem)
    requires Sorted(es)
    ensures Sorted(AddedTo(es, e))
    ensures Find(es, Id(e.id)) < |es| ==> SlotOf(es, e.id) == Find(es, Id(e.id)) && |AddedTo(es, e)| == |es|
    ensures Find(es, Id(e.id)) == |es| ==> AddedTo(es, e) == es[..SlotOf(es, e.id)] + [e] + es[SlotOf(es, e.id)..]
  {
    var k, f := SlotOf(es, e.id), Find(es, Id(e.id));
    if f < |es| { assert k <= f && es[k].id <= es[f].id; }
    if k < |es| && es[k].id == e.id {
      assert f == k;
    } else {
      InsertedSorted(es, k, e, es[..k] + [e] + es[k..]);
    }
  }

  lemma InsertedSorted(es: seq<Elem>, k: nat, e: Elem, t: seq<Elem>)
    requires Sorted(es) && k <= |es| && t == es[..k] + [e] + es[k..]
    requires (forall j :: 0 <= j < k ==> es[j].id <= e.id) && (k < |es| ==> e.id <= es[k].id)
    ensures Sorted(t)
  {
    InsertedAt(es, k, e, t);
    forall i, j | 0 <= i < j < |t| ensures t[i].id <= t[j].id {
      if j > k && k < |es| { assert es[k].id <= es[j - 1].id; }
    }
  }

  /** An element of the id, met behind smaller ones only, is replaced; otherwise the new one comes in
      behind the smaller ones. Nothing else changes. */
  lemma AddedHolds(a: seq<Elem>, x: Elem, c: seq<Elem>, e: Elem)
    requires forall j :: 0 <= j < |a| ==> a[j].id < e.id
    ensures x.id == e.id ==> AddedTo(a + [x] + c, e) == a + [e] + c
    ensures x.id > e.id ==> AddedTo(a + [x] + c, e) == a + [e] + ([x] + c)
    ensures AddedTo(a, e) == a + [e]
  {
    var es, k := a + [x] + c, SlotOf(a + [x] + c, e.id);
    assert forall j :: 0 <= j < |a| ==> es[j] == a[j];
    assert es[|a|] == x;
    assert SlotOf(a, e.id) == |a|;
    assert x.id >= e.id ==> k == |a|;
    assert es[..|a|] == a && es[|a|..] == [x] + c;
  }

  /** The first element of the id goes if it is not empty; otherwise nothing happens. */
  lemma RemovedHolds(a: seq<Elem>, x: Elem, c: seq<Elem>, index: nat)
    requires forall j :: 0 <= j < |a| ==> a[j].id != index
    ensures x.id == index ==> RemovedFrom(a + [x] + c, index) == if x.data != [] then a + c else a + [x] + c
    ensures RemovedFrom(a, index) == a
  {
    var es := a + [x] + c;
    assert forall j :: 0 <= j < |a| ==> es[j] == a[j];
    assert es[|a|] == x;
    if x.id == index {
      FoundAt(es, Id(index), |a|);
      assert es[..|a|] == a && es[|a| + 1..] == c;
    }
  }

  /** Adding an absent, non-empty element and removing it again gives back the list. */
  lemma AddThenRemove(es: seq<Elem>, e: Elem)
    requires Find(es, Id(e.id)) == |es| && e.data != []
    ensures RemovedFrom(AddedTo(es, e), e.id) == es
  {
    var k := SlotOf(es, e.id);
    var t := es[..k] + [e] + es[k..];
    assert k < |es| ==> !Id(e.id).Matches(es[k]);
    assert AddedTo(es, e) == t;
    InsertedAt(es, k, e, t);
    FoundAt(t, Id(e.id), k);
  }

  lemma FoundAt(es: seq<Elem>, q: Want, k: nat)
    requires k < |es| && q.Matches(es[k]) && forall j :: 0 <= j < k ==> !q.Matches(es[j])
    ensures Find(es, q) == k
  {
    var f := Find(es, q);
    assert f <= k;
    assert q.Matches(es[f]);
  }

  lemma {:induction false} SlotIs(es: seq<Elem>, index: nat, w: seq<Byte>, before: nat)
    requires AllFit(Element, es) && w == EncAll(Element, es)
    ensures Tiles(Element, w, Id(index)) && Slot(w, index) == Pos(Element, es, SlotOf(es, index))
    ensures LenBefore(w, index, before)
         == if SlotOf(es, index) == 0 then before else |es[SlotOf(es, index) - 1].data|
  {
    BytesTile(Element, es, Id(index), w);
    if es != [] {
      HeadIs(Element, es, Id(index), w);
      if es[0].id < index {
        var n := RecLen(Element, w);
        SlotIs(es[1..], index, w[n..], w[1]);
        PosTail(Element, es, SlotOf(es[1..], index), SlotOf(es, index));
      }
    }
  }

  /** What lies at record k, and before and behind it. */
  lemma AtRecord(es: seq<Elem>, k: nat, w: seq<Byte>, g: nat, behind: nat)
    requires AllFit(Element, es) && w == EncAll(Element, es) && k < |es|
    requires g == Pos(Element, es, k) && behind == g + 2 + |es[k].data|
    ensures behind <= |w| && w[g] as nat == es[k].id && w[g + 1] as int == |es[k].data|
    ensures w[..g] == EncTo(Element, es, k) && w[behind..] == EncAll(Element, es[k + 1..])
  {
    Around(Element, es, k);
    assert Fits(Element, es[k]);
    RecordBytes(es[k]);
    Thirds(w, EncTo(Element, es, k), Enc(Element, es[k]), EncAll(Element, es[k + 1..]), g, behind);
  }

  lemma RecordBytes(e: Elem)
    requires Fits(Element, e)
    ensures Enc(Element, e)[0] as nat == e.id && Enc(Element, e)[1] as int == |e.data|
  {
  }

  lemma Thirds(w: seq<Byte>, a: seq<Byte>, e: seq<Byte>, c: seq<Byte>, g: nat, behind: nat)
    requires w == a + e + c && g == |a| && behind == |a| + |e| && |e| >= 2
    ensures w[..g] == a && w[behind..] == c && w[g] == e[0] && w[g + 1] == e[1]
  {
  }

  /** What FindSlot sees. */
  lemma SlotFacts(es: seq<Elem>, index: nat, w: seq<Byte>, g: nat)
    requires AllFit(Element, es) && w == EncAll(Element, es) && g == Pos(Element, es, SlotOf(es, index))
    ensures Tiles(Element, w, Id(index)) && Slot(w, index) == g
    ensures var k := SlotOf(es, index);
      && (Occupied(w, index) <==> k < |es| && es[k].id == index)
      && (k < |es| ==> g + 2 <= |w| && w[g + 1] as int == |es[k].data|)
      && LenBefore(w, index, 0) == if k == 0 then 0 else |es[k - 1].data|
  {
    var k := SlotOf(es, index);
    SlotIs(es, index, w, 0);
    if k < |es| { AtRecord(es, k, w, g, g + 2 + |es[k].data|); }
  }

  lemma IeBytes(index: Byte, data: seq<Byte>)
    requires |data| < 256
    ensures Enc(Element, Elem(index, data)) == [index, |data|] + data
  {
  }

  /** AddBcnIe's bytes are the elements with the new one added. */
  lemma AddedMeans(es: seq<Elem>, index: Byte, data: seq<Byte>, w: seq<Byte>)
    requires AllFit(Element, es) && |data| < 256 && w == EncAll(Element, es)
    ensures Tiles(Element, w, Id(index)) && Added(w, index, data) == EncAll(Element, AddedTo(es, Elem(index, data)))
  {
    var k, e := SlotOf(es, index), Elem(index, data);
    var g := Pos(Element, es, k);
    SlotFacts(es, index, w, g);
    IeBytes(index, data);
    if k < |es| && es[k].id == e.id {
      Replacing(es, k, w, e, g, g + 2 + w[g + 1] as int);
    } else {
      Inserting(es, k, w, e, g);
    }
  }

  lemma Replacing(es: seq<Elem>, k: nat, w: seq<Byte>, e: Elem, g: nat, h: nat)
    requires AllFit(Element, es) && w == EncAll(Element, es) && k < |es|
    requires g == Pos(Element, es, k) && h == g + 2 + |es[k].data|
    ensures h <= |w| && Between(w, g, h, Enc(Element, e)) == EncAll(Element, es[k := e])
  {
    AtRecord(es, k, w, g, h);
    EncReplaced(Element, es, k, e);
  }

  lemma Inserting(es: seq<Elem>, k: nat, w: seq<Byte>, e: Elem, g: nat)
    requires w == EncAll(Element, es) && k <= |es| && g == Pos(Element, es, k)
    ensures g <= |w| && Between(w, g, g, Enc(Element, e)) == EncAll(Element, es[..k] + [e] + es[k..])
  {
    EncCut(Element, es, k);
    Halves(w, EncTo(Element, es, k), EncAll(Element, es[k..]));
    EncInserted(es, k, e);
  }

  lemma EncInserted(es: seq<Elem>, k: nat, e: Elem)
    requires k <= |es|
    ensures EncAll(Element, es[..k] + [e] + es[k..])
         == EncTo(Element, es, k) + Enc(Element, e) + EncAll(Element, es[k..])
  {
    EncCut(Element, es, k);
    EncAppend(Element, es[..k], [e]);
    EncOne(Element, e);
    EncAppend(Element, es[..k] + [e], es[k..]);
  }

  lemma Taking(es: seq<Elem>, k: nat, w: seq<Byte>, g: nat, h: nat)
    requires AllFit(Element, es) && w == EncAll(Element, es) && k < |es|
    requires g == Pos(Element, es, k) && h == g + 2 + |es[k].data|
    ensures h <= |w| && Between(w, g, h, []) == EncAll(Element, Without(es, k))
  {
    AtRecord(es, k, w, g, h);
    EncWithout(Element, es, k);
    CutOnly(w, g, h, EncTo(Element, es, k), EncAll(Element, es[k + 1..]));
  }

  lemma CutOnly(w: seq<Byte>, g: nat, h: nat, a: seq<Byte>, c: seq<Byte>)
    requires g <= h <= |w| && w[..g] == a && w[h..] == c
    ensures Between(w, g, h, []) == a + c
  {
  }

  /** AddBcnIe finds its anchor exactly when the element met, or else the one in front of the
      slot, exists and is not empty. */
  lemma AnchorMeans(es: seq<Elem>, index: Byte, w: seq<Byte>, k: nat)
    requires AllFit(Element, es) && w == EncAll(Element, es) && k == SlotOf(es, index)
    ensures Tiles(Element, w, Id(index))
    ensures HasAnchor(w, index) <==>
      if k < |es| && es[k].id == index as nat then es[k].data != [] else k > 0 && es[k - 1].data != []
  {
    SlotFacts(es, index, w, Pos(Element, es, k));
  }

  /** RemoveBcnIe's bytes are the elements without the first one of that id; an empty one stays,
      and hides later ones. */
  lemma RemovedMeans(es: seq<Elem>, index: Byte, w: seq<Byte>)
    requires AllFit(Element, es) && w == EncAll(Element, es)
    ensures Tiles(Element, w, Id(index)) && Removed(w, index) == EncAll(Element, RemovedFrom(es, index))
  {
    var k := Find(es, Id(index));
    FirstHitIs(Element, es, Id(index), w);
    var r, h := RemovedIs(w, index);
    if k < |es| {
      AtRecord(es, k, w, r, r + 2 + |es[k].data|);
      Taking(es, k, w, r, h);
    }
  }

  /** The round trip on the beacon's bytes. */
  lemma AddThenRemoveBytes(es: seq<Elem>, index: Byte, data: seq<Byte>, w: seq<Byte>, v: seq<Byte>)
    requires AllFit(Element, es) && 0 < |data| < 256 && w == EncAll(Element, es)
    requires Find(es, Id(index)) == |es| && Tiles(Element, w, Id(index)) && v == Added(w, index, data)
    ensures Tiles(Element, v, Id(index)) && Removed(v, index) == w
  {
    var e := Elem(index, data);
    AddedMeans(es, index, data, w);
    AddThenRemove(es, e);
    AddedFits(es, e);
    RemovedMeans(AddedTo(es, e), index, v);
  }

  lemma AddedFits(es: seq<Elem>, e: Elem)
    requires AllFit(Element, es) && Fits(Element, e)
    ensures AllFit(Element, AddedTo(es, e))
  {
  }
}
