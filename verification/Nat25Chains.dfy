/** The chains of the NAT2.5 hash table as values: what `next_hash` and `pprev_hash` must
    spell out, and that linking and unlinking an entry keeps it so. */
module Nat25Chains {
  import opened Nat25Spec

  /** What a `pprev_hash` pointer points at. */
  datatype Slot = Nowhere | Head(bucket: nat) | NextOf(prev: Entry)

  class Entry {
    var next: Entry?
    var pprev: Slot
    var use: int
    var mac: Mac
    var time: Jiffies
    const addr: Addr

    constructor (addr: Addr, mac: Mac, now: Jiffies)
      ensures this.addr == addr && this.mac == mac && time == now && use == 1
      ensures next == null && pprev == Nowhere
    {
      this.addr := addr;
      this.mac, time, use := mac, now, 1;
      next, pprev := null, Nowhere;
    }

    function Record(): Rec
      reads this
    {
      Rec(mac, time, use)
    }
  }

  /** The pointers of a table: bucket heads, `next_hash` and `pprev_hash` of each entry. */
  datatype Links = Links(heads: seq<Entry?>, next: map<Entry, Entry?>, pprev: map<Entry, Slot>)

  function Elems(c: seq<Entry>): set<Entry> {
    if c == [] then {} else {c[0]} + Elems(c[1..])
  }

  /** Following `next_hash` from `at` spells out exactly c, without repetition, and every
      back-pointer points at the very place its entry is reached from. */
  predicate ChainFrom(l: Links, at: Entry?, slot: Slot, c: seq<Entry>)
    decreases |c|
  {
    if c == [] then at == null
    else
      && at == c[0] && at in l.next && at in l.pprev && l.pprev[at] == slot
      && at !in Elems(c[1..]) && ChainFrom(l, l.next[at], NextOf(at), c[1..])
  }

  predicate BucketOk(hash: Addr -> Bucket, l: Links, i: nat, c: seq<Entry>)
    requires i < |l.heads|
  {
    && ChainFrom(l, l.heads[i], Head(i), c)
    && (forall e {:trigger e in Elems(c)} :: e in Elems(c) ==> e in l.next && hash(e.addr) == i)
  }

  predicate BucketsOk(hash: Addr -> Bucket, l: Links, chains: seq<seq<Entry>>, n: nat)
    requires n <= |l.heads| == |chains|
  {
    n == 0 || (BucketOk(hash, l, n - 1, chains[n - 1]) && BucketsOk(hash, l, chains, n - 1))
  }

  /** Chains that hold exactly the entries of the table, each in the bucket of its hash. */
  predicate Shaped(hash: Addr -> Bucket, l: Links, chains: seq<seq<Entry>>) {
    && |l.heads| == HASH_SIZE == |chains|
    && l.next.Keys == l.pprev.Keys
    && BucketsOk(hash, l, chains, |chains|)
    && (forall e {:trigger e in l.next} :: e in l.next ==> e in Elems(chains[hash(e.addr)]))
  }

  lemma {:induction false} BucketAt(hash: Addr -> Bucket, l: Links, chains: seq<seq<Entry>>, n: nat, i: nat)
    requires i < n <= |l.heads| == |chains| && BucketsOk(hash, l, chains, n)
    ensures BucketOk(hash, l, i, chains[i])
  {
    if i < n - 1 { BucketAt(hash, l, chains, n - 1, i); }
  }

  lemma {:induction false} BucketsFrom(hash: Addr -> Bucket, l: Links, chains: seq<seq<Entry>>, n: nat)
    requires n <= |l.heads| == |chains| && forall i :: 0 <= i < n ==> BucketOk(hash, l, i, chains[i])
    ensures BucketsOk(hash, l, chains, n)
  {
    if n > 0 { BucketsFrom(hash, l, chains, n - 1); }
  }

  /** m agrees with l on the entry e. */
  predicate Same(l: Links, m: Links, e: Entry) {
    && e in l.next && e in m.next && m.next[e] == l.next[e]
    && e in l.pprev && e in m.pprev && m.pprev[e] == l.pprev[e]
  }

  /** A chain survives any change that leaves its entries alone, but for the first
      back-pointer, which may move to a new slot. */
  lemma {:induction false} ChainKept(l: Links, m: Links, at: Entry?, slot: Slot, slot': Slot, c: seq<Entry>)
    requires ChainFrom(l, at, slot, c)
    requires forall e :: e in Elems(c) && e != at ==> Same(l, m, e)
    requires at != null ==>
      at in l.next && at in m.next && m.next[at] == l.next[at] && at in m.pprev && m.pprev[at] == slot'
    ensures ChainFrom(m, at, slot', c)
    decreases |c|
  {
    if c != [] {
      var n := l.next[at];
      if n != null {
        assert n in Elems(c[1..]) && Same(l, m, n);
      }
      ChainKept(l, m, n, NextOf(at), NextOf(at), c[1..]);
    }
  }

  lemma BucketKept(hash: Addr -> Bucket, l: Links, m: Links, i: nat, c: seq<Entry>)
    requires i < |l.heads| == |m.heads| && l.heads[i] == m.heads[i] && BucketOk(hash, l, i, c)
    requires forall e :: e in Elems(c) ==> Same(l, m, e)
    ensures BucketOk(hash, m, i, c)
  {
    assert l.heads[i] != null ==> l.heads[i] in Elems(c);
    ChainKept(l, m, l.heads[i], Head(i), Head(i), c);
  }

  lemma {:induction false} ChainMembers(l: Links, at: Entry?, slot: Slot, c: seq<Entry>)
    requires ChainFrom(l, at, slot, c)
    ensures forall e :: e in Elems(c) ==> e in l.next && e in l.pprev
    decreases |c|
  {
    if c != [] {
      ChainMembers(l, l.next[at], NextOf(at), c[1..]);
    }
  }

  /** What __network_hash_link does to the pointers. */
  function LinkedAt(l: Links, b: nat, ent: Entry): Links
    requires b < |l.heads|
  {
    var h := l.heads[b];
    var pp := if h != null then l.pprev[h := NextOf(ent)] else l.pprev;
    Links(l.heads[b := ent], l.next[ent := h], pp[ent := Head(b)])
  }

  lemma LinkShaped(hash: Addr -> Bucket, l: Links, chains: seq<seq<Entry>>, ent: Entry)
    requires Shaped(hash, l, chains) && ent !in l.next
    ensures var b := hash(ent.addr);
      Shaped(hash, LinkedAt(l, b, ent), chains[b := [ent] + chains[b]])
  {
    var b := hash(ent.addr);
    var c := chains[b];
    var d := [ent] + c;
    var m := LinkedAt(l, b, ent);
    var after := chains[b := d];
    assert d[1..] == c && Elems(d) == {ent} + Elems(c);
    BucketAt(hash, l, chains, |chains|, b);
    assert l.heads[b] != null ==> l.heads[b] in Elems(c);
    forall i | 0 <= i < HASH_SIZE
      ensures BucketOk(hash, m, i, after[i])
    {
      BucketAt(hash, l, chains, |chains|, i);
      ChainMembers(l, l.heads[i], Head(i), chains[i]);
      if i == b {
        ChainKept(l, m, l.heads[b], Head(b), NextOf(ent), c);
      } else {
        BucketKept(hash, l, m, i, chains[i]);
      }
    }
    BucketsFrom(hash, m, after, |after|);
  }

  predicate UnlinkReady(l: Links, ent: Entry) {
    ent in l.next && ent in l.pprev && (l.pprev[ent].Head? ==> l.pprev[ent].bucket < |l.heads|)
  }

  /** What __network_hash_unlink does to the pointers of the entries that stay. */
  function UnlinkedFrom(l: Links, ent: Entry): Links
    requires UnlinkReady(l, ent)
  {
    var n, s := l.next[ent], l.pprev[ent];
    Links(if s.Head? then l.heads[s.bucket := n] else l.heads,
          (if s.NextOf? then l.next[s.prev := n] else l.next) - {ent},
          (if n != null then l.pprev[n := s] else l.pprev) - {ent})
  }

  function Remove(c: seq<Entry>, ent: Entry): seq<Entry> {
    if c == [] then [] else if c[0] == ent then c[1..] else [c[0]] + Remove(c[1..], ent)
  }

  /** An entry is reached from the chain's first slot or from another entry of the chain. */
  lemma {:induction false} SlotInChain(l: Links, at: Entry?, slot: Slot, c: seq<Entry>, ent: Entry)
    requires ChainFrom(l, at, slot, c) && ent in Elems(c)
    ensures ent in l.next && ent in l.pprev
    ensures if at == ent then l.pprev[ent] == slot
            else l.pprev[ent].NextOf? && l.pprev[ent].prev in Elems(c)
    ensures at != ent ==> l.pprev[ent].prev != ent
    ensures l.next[ent] != null ==> l.next[ent] in Elems(c) && l.next[ent] != at && l.next[ent] != ent
    decreases |c|
  {
    var n := l.next[at];
    assert n != null ==> n in Elems(c[1..]);
    if at != ent {
      SlotInChain(l, n, NextOf(at), c[1..], ent);
    }
  }

  /** Back-pointers and forward pointers agree inside a chain. */
  lemma {:induction false} PointersAgree(l: Links, at: Entry?, slot: Slot, c: seq<Entry>, ent: Entry)
    requires ChainFrom(l, at, slot, c) && ent in Elems(c)
    ensures ent in l.next && ent in l.pprev
    ensures if at == ent then l.pprev[ent] == slot
            else l.pprev[ent].NextOf? && l.pprev[ent].prev in Elems(c) && l.pprev[ent].prev in l.next
                 && l.next[l.pprev[ent].prev] == ent
    ensures l.next[ent] != null ==>
      l.next[ent] in Elems(c) && l.next[ent] in l.pprev && l.pprev[l.next[ent]] == NextOf(ent)
    decreases |c|
  {
    var n := l.next[at];
    if at == ent {
      assert n != null ==> n in Elems(c[1..]);
    } else {
      PointersAgree(l, n, NextOf(at), c[1..], ent);
    }
  }

  lemma {:induction false} UnlinkChain(l: Links, at: Entry?, slot: Slot, c: seq<Entry>, ent: Entry)
    requires ChainFrom(l, at, slot, c) && UnlinkReady(l, ent) && ent in Elems(c)
    requires slot.NextOf? ==> slot.prev !in Elems(c)
    ensures ChainFrom(UnlinkedFrom(l, ent), if at == ent then l.next[ent] else at, slot, Remove(c, ent))
    ensures Elems(Remove(c, ent)) == Elems(c) - {ent}
    decreases |c|
  {
    ChainMembers(l, at, slot, c);
    SlotInChain(l, at, slot, c, ent);
    var m := UnlinkedFrom(l, ent);
    var n := l.next[at];
    if at == ent {
      assert n != null ==> n in Elems(c[1..]);
      ChainKept(l, m, n, NextOf(at), slot, c[1..]);
    } else {
      SlotInChain(l, n, NextOf(at), c[1..], ent);
      UnlinkChain(l, n, NextOf(at), c[1..], ent);
      assert m.next[at] == if n == ent then l.next[ent] else n;
      assert Remove(c, ent)[1..] == Remove(c[1..], ent);
    }
  }

  lemma UnlinkHere(hash: Addr -> Bucket, l: Links, b: nat, c: seq<Entry>, ent: Entry)
    requires b < |l.heads| && BucketOk(hash, l, b, c) && UnlinkReady(l, ent) && ent in Elems(c)
    ensures BucketOk(hash, UnlinkedFrom(l, ent), b, Remove(c, ent))
    ensures Elems(Remove(c, ent)) == Elems(c) - {ent}
    ensures UnlinkedFrom(l, ent).next.Keys == l.next.Keys - {ent}
    ensures UnlinkedFrom(l, ent).pprev.Keys == l.pprev.Keys - {ent}
  {
    ChainMembers(l, l.heads[b], Head(b), c);
    SlotInChain(l, l.heads[b], Head(b), c, ent);
    UnlinkChain(l, l.heads[b], Head(b), c, ent);
  }

  lemma UnlinkElsewhere(hash: Addr -> Bucket, l: Links, b: nat, c: seq<Entry>, ent: Entry, i: nat, d: seq<Entry>)
    requires b < |l.heads| && BucketOk(hash, l, b, c) && UnlinkReady(l, ent) && ent in Elems(c)
    requires i < |l.heads| && i != b && BucketOk(hash, l, i, d)
    ensures BucketOk(hash, UnlinkedFrom(l, ent), i, d)
  {
    SlotInChain(l, l.heads[b], Head(b), c, ent);
    ChainMembers(l, l.heads[i], Head(i), d);
    BucketKept(hash, l, UnlinkedFrom(l, ent), i, d);
  }

  lemma UnlinkShaped(hash: Addr -> Bucket, l: Links, chains: seq<seq<Entry>>, ent: Entry)
    requires Shaped(hash, l, chains) && UnlinkReady(l, ent)
    ensures var b := hash(ent.addr);
      Shaped(hash, UnlinkedFrom(l, ent), chains[b := Remove(chains[b], ent)])
  {
    var b := hash(ent.addr);
    var c := chains[b];
    var m := UnlinkedFrom(l, ent);
    var after := chains[b := Remove(c, ent)];
    BucketAt(hash, l, chains, |chains|, b);
    UnlinkHere(hash, l, b, c, ent);
    forall i | 0 <= i < HASH_SIZE
      ensures BucketOk(hash, m, i, after[i])
    {
      if i != b {
        BucketAt(hash, l, chains, |chains|, i);
        UnlinkElsewhere(hash, l, b, c, ent, i, chains[i]);
      }
    }
    BucketsFrom(hash, m, after, |after|);
  }

  // ---- the whole table as a value ---------------------------------------------------

  /** The bucket hash, chains, entries by address, pointers, the record in each entry, and
      the map that the table stands for. */
  datatype Picture = Picture(hash: Addr -> Bucket, chains: seq<seq<Entry>>, entries: map<Addr, Entry>,
                             links: Links, recs: map<Entry, Rec>, table: Table)

  /** Addresses are unique and the map agrees with the entries. */
  predicate Indexed(v: Picture) {
    && v.table.Keys == v.entries.Keys && v.recs.Keys == v.links.next.Keys
    && (forall a {:trigger a in v.entries} :: a in v.entries ==>
          v.entries[a] in v.links.next && v.entries[a].addr == a)
    && (forall e {:trigger e in v.links.next} :: e in v.links.next ==>
          e.addr in v.entries && v.entries[e.addr] == e && v.table[e.addr] == v.recs[e])
  }

  predicate WellFormed(v: Picture) {
    Shaped(v.hash, v.links, v.chains) && Indexed(v) && Counted(v.table)
  }

  /** WellFormed, kept folded: Dafny unfolds a recursive definition one step at a time, so a
      proof that only passes the fact along does not pay for its quantifiers.  `depth` has
      no other meaning. */
  predicate Sound(v: Picture, depth: nat) {
    if depth == 0 then WellFormed(v) else Sound(v, depth - 1)
  }

  lemma {:induction false} Unfold(v: Picture, depth: nat)
    ensures Sound(v, depth) <==> WellFormed(v)
  {
    if depth > 0 { Unfold(v, depth - 1); }
  }

  function Empty(hash: Addr -> Bucket): Picture {
    Picture(hash, seq(HASH_SIZE, _ => []), map[],
            Links(seq(HASH_SIZE, _ => null), map[], map[]), map[], map[])
  }

  lemma EmptySound(hash: Addr -> Bucket, depth: nat)
    ensures Sound(Empty(hash), depth)
  {
    var v := Empty(hash);
    BucketsFrom(hash, v.links, v.chains, |v.chains|);
    Unfold(v, depth);
  }

  function WithLinked(v: Picture, ent: Entry, r: Rec): Picture
    requires |v.chains| == |v.links.heads| == HASH_SIZE
  {
    var b := v.hash(ent.addr);
    v.(chains := v.chains[b := [ent] + v.chains[b]], entries := v.entries[ent.addr := ent],
       links := LinkedAt(v.links, b, ent), recs := v.recs[ent := r], table := v.table[ent.addr := r])
  }

  function WithUnlinked(v: Picture, ent: Entry): Picture
    requires |v.chains| == HASH_SIZE && UnlinkReady(v.links, ent)
  {
    var b := v.hash(ent.addr);
    v.(chains := v.chains[b := Remove(v.chains[b], ent)], entries := v.entries - {ent.addr},
       links := UnlinkedFrom(v.links, ent), recs := v.recs - {ent}, table := v.table - {ent.addr})
  }

  function WithRecord(v: Picture, ent: Entry, r: Rec): Picture {
    v.(recs := v.recs[ent := r], table := v.table[ent.addr := r])
  }

  /** What the record said does not matter any more. */
  lemma UnlinkedAnyway(v: Picture, ent: Entry, r: Rec)
    requires |v.chains| == HASH_SIZE && UnlinkReady(v.links, ent)
    ensures WithUnlinked(WithRecord(v, ent, r), ent) == WithUnlinked(v, ent)
  {
  }

  lemma LinkIndexed(v: Picture, ent: Entry, r: Rec)
    requires Indexed(v) && |v.chains| == |v.links.heads| == HASH_SIZE
    requires ent !in v.links.next && ent.addr !in v.table
    ensures Indexed(WithLinked(v, ent, r))
  {
  }

  lemma UnlinkIndexed(v: Picture, ent: Entry)
    requires Indexed(v) && |v.chains| == HASH_SIZE && UnlinkReady(v.links, ent)
    requires v.links.pprev[ent].NextOf? ==> v.links.pprev[ent].prev in v.links.next
    ensures Indexed(WithUnlinked(v, ent))
  {
  }

  lemma RecordIndexed(v: Picture, ent: Entry, r: Rec)
    requires Indexed(v) && ent in v.links.next
    ensures Indexed(WithRecord(v, ent, r))
  {
  }

  lemma ReadyToUnlink(hash: Addr -> Bucket, l: Links, chains: seq<seq<Entry>>, ent: Entry)
    requires Shaped(hash, l, chains) && ent in l.next
    ensures UnlinkReady(l, ent) && l.pprev[ent] != Nowhere
    ensures l.pprev[ent].NextOf? ==> l.pprev[ent].prev in l.next && l.pprev[ent].prev != ent
    ensures l.next[ent] != null ==> l.next[ent] in l.next && l.next[ent] != ent
  {
    var b := hash(ent.addr);
    BucketAt(hash, l, chains, |chains|, b);
    SlotInChain(l, l.heads[b], Head(b), chains[b], ent);
    ChainMembers(l, l.heads[b], Head(b), chains[b]);
  }

  lemma LinkSound(v: Picture, ent: Entry, r: Rec, depth: nat)
    requires Sound(v, depth) && ent !in v.links.next && ent.addr !in v.table && r.use >= 1
    ensures |v.chains| == |v.links.heads| == HASH_SIZE
    ensures v.links.heads[v.hash(ent.addr)] != null ==> v.links.heads[v.hash(ent.addr)] in v.links.next
    ensures Sound(WithLinked(v, ent, r), depth)
  {
    Unfold(v, depth);
    var b := v.hash(ent.addr);
    BucketAt(v.hash, v.links, v.chains, |v.chains|, b);
    ChainMembers(v.links, v.links.heads[b], Head(b), v.chains[b]);
    LinkShaped(v.hash, v.links, v.chains, ent);
    LinkIndexed(v, ent, r);
    Unfold(WithLinked(v, ent, r), depth);
  }

  lemma UnlinkSound(v: Picture, ent: Entry, depth: nat)
    requires Sound(v, depth) && ent in v.links.next
    ensures |v.chains| == HASH_SIZE && UnlinkReady(v.links, ent) && v.links.pprev[ent] != Nowhere
    ensures v.links.pprev[ent].NextOf? ==>
      v.links.pprev[ent].prev in v.links.next && v.links.pprev[ent].prev != ent
    ensures v.links.next[ent] != null ==> v.links.next[ent] in v.links.next && v.links.next[ent] != ent
    ensures Sound(WithUnlinked(v, ent), depth)
    ensures WithUnlinked(v, ent).links.next.Keys == v.links.next.Keys - {ent}
  {
    Unfold(v, depth);
    ReadyToUnlink(v.hash, v.links, v.chains, ent);
    UnlinkShaped(v.hash, v.links, v.chains, ent);
    UnlinkIndexed(v, ent);
    Unfold(WithUnlinked(v, ent), depth);
  }

  lemma RecordSound(v: Picture, ent: Entry, r: Rec, depth: nat)
    requires Sound(v, depth) && ent in v.links.next && r.use >= 1
    ensures Sound(WithRecord(v, ent, r), depth)
  {
    Unfold(v, depth);
    RecordIndexed(v, ent, r);
    Unfold(WithRecord(v, ent, r), depth);
  }

  lemma EntryFacts(v: Picture, e: Entry, depth: nat)
    requires Sound(v, depth) && e in v.links.next
    ensures e.addr in v.table && e in v.recs && v.table[e.addr] == v.recs[e] && v.recs[e].use >= 1
    ensures e.addr in v.entries && v.entries[e.addr] == e
  {
    Unfold(v, depth);
  }

  lemma AddressFacts(v: Picture, a: Addr, depth: nat)
    requires Sound(v, depth)
    ensures a in v.table <==> a in v.entries
    ensures a in v.entries ==> v.entries[a] in v.links.next && v.entries[a].addr == a
  {
    Unfold(v, depth);
  }

  lemma BucketFacts(v: Picture, a: Addr, depth: nat)
    requires Sound(v, depth)
    ensures |v.chains| == |v.links.heads| == HASH_SIZE
    ensures BucketOk(v.hash, v.links, v.hash(a), v.chains[v.hash(a)])
    ensures a in v.entries ==> v.entries[a] in Elems(v.chains[v.hash(a)])
  {
    Unfold(v, depth);
    BucketAt(v.hash, v.links, v.chains, |v.chains|, v.hash(a));
  }

  // ---- addresses of a chain ---------------------------------------------------------

  function AddrsOf(c: seq<Entry>): set<Addr> {
    if c == [] then {} else {c[0].addr} + AddrsOf(c[1..])
  }

  predicate AddrsDistinct(c: seq<Entry>) {
    c == [] || (c[0].addr !in AddrsOf(c[1..]) && AddrsDistinct(c[1..]))
  }

  /** The addresses of m in the buckets before i. */
  function Below(hash: Addr -> Bucket, m: Table, i: nat): set<Addr> {
    set a | a in m && hash(a) < i
  }

  lemma {:induction false} AddrsOfElems(v: Picture, at: Entry?, slot: Slot, c: seq<Entry>)
    requires ChainFrom(v.links, at, slot, c)
    requires forall e :: e in Elems(c) ==> e.addr in v.entries && v.entries[e.addr] == e
    ensures AddrsDistinct(c)
    ensures forall a :: a in AddrsOf(c) ==> a in v.entries && v.entries[a] in Elems(c)
    ensures forall e :: e in Elems(c) ==> e.addr in AddrsOf(c)
    decreases |c|
  {
    if c != [] {
      AddrsOfElems(v, v.links.next[at], NextOf(at), c[1..]);
    }
  }

  /** Chain i carries exactly the addresses of the table that hash to i, each once. */
  lemma ChainAddrs(v: Picture, i: Bucket, depth: nat)
    requires Sound(v, depth)
    ensures |v.chains| == |v.links.heads| == HASH_SIZE
    ensures ChainFrom(v.links, v.links.heads[i], Head(i), v.chains[i]) && AddrsDistinct(v.chains[i])
    ensures AddrsOf(v.chains[i]) == set a | a in v.table && v.hash(a) == i
  {
    Unfold(v, depth);
    var c := v.chains[i];
    BucketAt(v.hash, v.links, v.chains, |v.chains|, i);
    AddrsOfElems(v, v.links.heads[i], Head(i), c);
    forall a | a in v.table && v.hash(a) == i
      ensures a in AddrsOf(c)
    {
      assert v.entries[a] in v.links.next;
    }
  }

  /** The table after a sweep has visited the buckets up to i, except for the entries of
      `rest` in bucket i. */
  function SweptTo(age: nat, hash: Addr -> Bucket, m: Table, now: Jiffies, i: nat, rest: seq<Entry>): Table {
    Aged(age, m, now, Below(hash, m, i + 1) - AddrsOf(rest))
  }

  lemma SweepStarts(age: nat, hash: Addr -> Bucket, m: Table, now: Jiffies, i: nat, table: Table, chain: seq<Entry>)
    requires table == Aged(age, m, now, Below(hash, m, i))
    requires AddrsOf(chain) == set a | a in table && hash(a) == i
    ensures table == SweptTo(age, hash, m, now, i, chain) && AddrsOf(chain) <= Below(hash, m, i + 1)
  {
    assert Below(hash, m, i) == Below(hash, m, i + 1) - AddrsOf(chain);
  }

  lemma SweepMoves(age: nat, hash: Addr -> Bucket, m: Table, now: Jiffies, i: nat, rest: seq<Entry>)
    requires rest != [] && AddrsDistinct(rest) && AddrsOf(rest) <= Below(hash, m, i + 1)
    ensures Aged(age, SweptTo(age, hash, m, now, i, rest), now, {rest[0].addr})
         == SweptTo(age, hash, m, now, i, rest[1..])
    ensures AddrsOf(rest[1..]) <= Below(hash, m, i + 1)
  {
    var d, a := Below(hash, m, i + 1) - AddrsOf(rest), rest[0].addr;
    AgedOneMore(age, m, now, d, a);
    assert d + {a} == Below(hash, m, i + 1) - AddrsOf(rest[1..]);
  }
}
