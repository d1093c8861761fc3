/** The NAT2.5 hash table itself, its chains relinked in place, proved to refine the
    finite map of Nat25Spec. */
module Nat25Db {
  import opened Bytes
  import opened Nat25Spec
  import opened Nat25Chains

  class Db {
    var nethash: seq<Entry?>
    const age: nat               // NAT25_AGEING_TIME * HZ
    const hash: Addr -> Bucket   // Nat25Spec.Hash; nothing but the constructor depends on it
    var scdb: Entry?             // scdb_entry
    var scdbMac: Mac
    var scdbIp: seq<Byte>
    ghost var view: Picture
    ghost const depth: nat       // see Nat25Chains.Sound

    ghost function Repr(): set<Entry>
      reads this
    {
      view.links.next.Keys
    }

    ghost function Contents(): Table
      reads this
    {
      view.table
    }

    /** `view` is a true picture of the heap. */
    ghost predicate PointersOk()
      reads this, Repr()
    {
      && view.hash == hash && view.links.heads == nethash
      && (forall e {:trigger e in view.links.next} :: e in view.links.next ==>
            && view.links.next[e] == e.next
            && e in view.links.pprev && view.links.pprev[e] == e.pprev
            && e in view.recs && view.recs[e] == e.Record())
    }

    ghost predicate Valid()
      reads this, Repr()
    {
      PointersOk() && depth > 0 && Sound(view, depth) && (scdb != null ==> scdb in Repr())
    }

    constructor (age: nat)
      ensures Valid() && Contents() == map[] && scdb == null
      ensures hash == Hash && this.age == age
    {
      hash, this.age := Hash, age;
      nethash := seq(HASH_SIZE, _ => null);
      scdb, scdbMac, scdbIp := null, Mac(0, 0, 0, 0, 0, 0), [0, 0, 0, 0];
      view, depth := Empty(Hash), 1;
      new;
      EmptySound(hash, depth);
    }

    /** What validity says of the pointers in the heap: an entry is reached through exactly
        the place its back-pointer names, in the bucket of its hash, and no other entry has
        its address. */
    lemma PointersExact(e: Entry)
      requires Valid() && e in Repr()
      ensures match e.pprev
        case Nowhere => false
        case Head(i) => i == hash(e.addr) && i < |nethash| && nethash[i] == e
        case NextOf(p) => p in Repr() && p.next == e && hash(p.addr) == hash(e.addr)
      ensures e.next != null ==>
        e.next in Repr() && e.next.pprev == NextOf(e) && hash(e.next.addr) == hash(e.addr)
      ensures forall f :: f in Repr() && f.addr == e.addr ==> f == e
    {
      var b := hash(e.addr);
      EntryFacts(view, e, depth);
      BucketFacts(view, e.addr, depth);
      PointersAgree(view.links, nethash[b], Head(b), view.chains[b], e);
      forall f | f in Repr() && f.addr == e.addr
        ensures f == e
      {
        EntryFacts(view, f, depth);
      }
    }

    // ---- writes to the heap ---------------------------------------------------------
    // Each takes the view it is to leave behind.

    /** atomic_inc(&db->use_count) */
    method IncUse(db: Entry, ghost after: Picture)
      requires PointersOk() && db in Repr()
      requires after == WithRecord(view, db, Rec(db.mac, db.time, db.use + 1))
      modifies db`use, this`view
      ensures PointersOk() && view == after
    {
      db.use := db.use + 1;
      view := after;
    }

    /** The decrement of atomic_dec_and_test(&f->use_count) */
    method DecUse(db: Entry, ghost after: Picture)
      requires PointersOk() && db in Repr()
      requires after == WithRecord(view, db, Rec(db.mac, db.time, db.use - 1))
      modifies db`use, this`view
      ensures PointersOk() && view == after
    {
      db.use := db.use - 1;
      view := after;
    }

    method Refresh(db: Entry, mac: Mac, now: Jiffies, ghost after: Picture)
      requires PointersOk() && db in Repr()
      requires after == WithRecord(view, db, Rec(mac, now, db.use))
      modifies db`mac, db`time, this`view
      ensures PointersOk() && view == after
    {
      db.mac := mac;
      db.time := now;
      view := after;
    }

    method SetBack(e: Entry, slot: Slot, ghost after: Picture)
      requires PointersOk() && e in Repr()
      requires after == view.(links := view.links.(pprev := view.links.pprev[e := slot]))
      modifies e`pprev, this`view
      ensures PointersOk() && view == after
    {
      e.pprev := slot;
      view := after;
    }

    /** __network_hash_link */
    method Link(ent: Entry, h: Bucket, ghost after: Picture)
      requires PointersOk() && ent !in Repr() && h == hash(ent.addr)
      requires |view.chains| == |nethash| == HASH_SIZE
      requires nethash[h] != null ==> nethash[h] in Repr()
      requires after == WithLinked(view, ent, ent.Record())
      modifies this`nethash, this`view, ent`next, ent`pprev, Repr()`pprev
      ensures PointersOk() && view == after
    {
      ent.next := nethash[h];
      if ent.next != null {
        SetBack(ent.next, NextOf(ent), view.(links := view.links.(pprev := view.links.pprev[ent.next := NextOf(ent)])));
      }
      PutFirst(ent, h, after);
    }

    /** The second half of __network_hash_link: the first entry of the chain already points back
        to `ent`, if there is one. */
    method PutFirst(ent: Entry, h: Bucket, ghost after: Picture)
      requires PointersOk() && ent !in Repr() && h < |nethash| && ent.next == nethash[h]
      requires after.hash == hash && after.recs == view.recs[ent := ent.Record()]
      requires after.links ==
        Links(nethash[h := ent], view.links.next[ent := ent.next], view.links.pprev[ent := Head(h)])
      modifies this`nethash, this`view, ent`pprev
      ensures PointersOk() && view == after
    {
      nethash := nethash[h := ent];
      ent.pprev := Head(h);
      view := after;
    }

    /** The first half of __network_hash_unlink: lead the chain past `ent`, which is the first of
        its chain ... */
    method BypassFirst(ent: Entry, i: nat, ghost after: Picture)
      requires PointersOk() && ent in Repr() && ent.pprev == Head(i) && i < |nethash|
      requires |view.chains| == HASH_SIZE && UnlinkReady(view.links, ent)
      requires ent.next != null ==> ent.next in Repr() && ent.next != ent
      requires after == WithUnlinked(view, ent)
      modifies this`nethash, this`view, Repr()`pprev
      ensures PointersOk() && view == after
    {
      view := after;
      if ent.next != null { ent.next.pprev := ent.pprev; }
      nethash := nethash[i := ent.next];
    }

    /** ... or follows p. */
    method BypassAfter(ent: Entry, p: Entry, ghost after: Picture)
      requires PointersOk() && ent in Repr() && ent.pprev == NextOf(p) && p in Repr() && p != ent
      requires |view.chains| == HASH_SIZE && UnlinkReady(view.links, ent)
      requires ent.next != null ==> ent.next in Repr() && ent.next != ent
      requires after == WithUnlinked(view, ent)
      modifies this`view, Repr()`next, Repr()`pprev
      ensures PointersOk() && view == after
    {
      view := after;
      if ent.next != null { ent.next.pprev := ent.pprev; }
      p.next := ent.next;
    }

    /** __network_hash_unlink */
    method Unlink(ent: Entry, ghost after: Picture)
      requires PointersOk() && ent in Repr()
      requires |view.chains| == HASH_SIZE && UnlinkReady(view.links, ent) && ent.pprev != Nowhere
      requires ent.pprev.NextOf? ==> ent.pprev.prev in Repr() && ent.pprev.prev != ent
      requires ent.next != null ==> ent.next in Repr() && ent.next != ent
      requires after == WithUnlinked(view, ent) && ent !in after.links.next
      modifies this`nethash, this`view, Repr()`next, Repr()`pprev
      ensures PointersOk() && view == after && ent.next == null && ent.pprev == Nowhere
    {
      match ent.pprev {
        case Head(i) => BypassFirst(ent, i, after);
        case NextOf(p) => BypassAfter(ent, p, after);
        case Nowhere => assert false;
      }
      Clear(ent);
    }

    method Clear(ent: Entry)
      requires PointersOk() && ent !in Repr()
      modifies ent`next, ent`pprev
      ensures PointersOk() && ent.next == null && ent.pprev == Nowhere
    {
      ent.next := null;
      ent.pprev := Nowhere;
    }

    // ---- the operations -------------------------------------------------------------

    /** The walk along one chain that lookup, insert and scdb_findEntry share. */
    method Find(a: Addr) returns (db: Entry?)
      requires Valid()
      ensures db == if a in view.entries then view.entries[a] else null
      ensures db != null ==> db in Repr() && db.addr == a && a in Contents()
      ensures db != null ==> Contents()[a] == db.Record() && db.use >= 1
      ensures db == null ==> a !in Contents()
    {
      BucketFacts(view, a, depth);
      AddressFacts(view, a, depth);
      ghost var l, slot, rest := view.links, Head(hash(a)), view.chains[hash(a)];
      db := nethash[hash(a)];
      while db != null
        invariant ChainFrom(l, db, slot, rest)
        invariant forall e :: e in Elems(rest) ==> e in Repr()
        invariant a in view.entries ==> view.entries[a] in Elems(rest)
        decreases |rest|
      {
        if db.addr == a {
          EntryFacts(view, db, depth);
          return;
        }
        slot, rest := NextOf(db), rest[1..];
        db := db.next;
      }
    }

    /** __nat25_db_network_lookup_and_replace; `frame` is skb->data. */
    method LookupAndReplace(frame: array<Byte>, a: Addr, now: Jiffies) returns (found: bool)
      requires Valid() && frame.Length >= 6
      modifies frame, Repr()`use, this`view
      ensures Valid() && Repr() == old(Repr())
      ensures Contents() == Lookup(age, old(Contents()), a, now)
      ensures found <==> a in old(Contents())
      ensures var m := old(Contents());
        if a in m && !Expired(age, m[a].time, now)
        then frame[..] == m[a].mac.Octets() + old(frame[6..]) && a in Contents() && Contents()[a].use == m[a].use + 1
        else frame[..] == old(frame[..]) && Contents() == m
    {
      var db := Find(a);
      found := db != null;
      if db != null && !Expired(age, db.time, now) {
        CopyMac(frame, db.mac);
        ghost var r := Rec(db.mac, db.time, db.use + 1);
        RecordSound(view, db, r, depth);
        IncUse(db, WithRecord(view, db, r));
      }
    }

    /** __nat25_db_network_insert */
    method Insert(mac: Mac, a: Addr, now: Jiffies)
      requires Valid()
      modifies this`nethash, this`view, Repr()
      ensures Valid() && fresh(Repr() - old(Repr()))
      ensures Contents() == Nat25Spec.Insert(old(Contents()), a, mac, now)
      ensures Contents() ==
        old(Contents())[a := Rec(mac, now, if a in old(Contents()) then old(Contents())[a].use else 1)]
    {
      var db := Find(a);
      if db != null {
        ghost var r := Rec(mac, now, db.use);
        RecordSound(view, db, r, depth);
        Refresh(db, mac, now, WithRecord(view, db, r));
      } else {
        var ent := new Entry(a, mac, now);
        LinkSound(view, ent, ent.Record(), depth);
        Link(ent, hash(a), WithLinked(view, ent, ent.Record()));
      }
    }

    /** The shortcut entry goes when the entry it points at goes. */
    method ForgetShortcut(f: Entry)
      modifies this`scdb, this`scdbMac, this`scdbIp
      ensures scdb == if old(scdb) == f then null else old(scdb)
      ensures old(scdb) == f ==> scdbMac == Mac(0, 0, 0, 0, 0, 0) && scdbIp == [0, 0, 0, 0]
      ensures old(scdb) != f ==> scdbMac == old(scdbMac) && scdbIp == old(scdbIp)
    {
      if scdb == f {
        scdbMac := Mac(0, 0, 0, 0, 0, 0);
        scdbIp := [0, 0, 0, 0];
        scdb := null;
      }
    }

    /** atomic_dec_and_test(&f->use_count); `was` is the table before it. */
    method DecAndTest(f: Entry, ghost was: Picture) returns (zero: bool)
      requires Valid() && f in Repr() && was == view
      modifies f`use, this`view
      ensures PointersOk() && f in Repr()
      ensures zero == (old(f.use) == 1)
      ensures view == WithRecord(was, f, Rec(old(f.mac), old(f.time), old(f.use) - 1))
      ensures !zero ==> Valid()
    {
      EntryFacts(view, f, depth);
      if f.use > 1 { RecordSound(view, f, Rec(f.mac, f.time, f.use - 1), depth); }
      DecUse(f, WithRecord(view, f, Rec(f.mac, f.time, f.use - 1)));
      zero := f.use == 0;
    }

    /** Unlink and free an entry whose count has just reached zero. */
    method Expunge(f: Entry, ghost was: Picture)
      requires PointersOk() && f in Repr() && depth > 0 && Sound(was, depth) && view == WithRecord(was, f, f.Record())
      requires scdb != null ==> scdb in Repr()
      modifies this`nethash, this`view, this`scdb, this`scdbMac, this`scdbIp, Repr()`next, Repr()`pprev
      ensures |was.chains| == HASH_SIZE && UnlinkReady(was.links, f)
      ensures Valid() && view == WithUnlinked(was, f) && f !in Repr() && Repr() <= old(Repr())
      ensures scdb == if old(scdb) == f then null else old(scdb)
    {
      ForgetShortcut(f);
      UnlinkSound(was, f, depth);
      UnlinkedAnyway(was, f, f.Record());
      Unlink(f, WithUnlinked(was, f));
    }

    /** The body of the inner loop of nat25_db_expire. */
    method AgeOne(f: Entry, now: Jiffies)
      requires Valid() && f in Repr()
      modifies this`nethash, this`view, this`scdb, this`scdbMac, this`scdbIp
      modifies Repr()`next, Repr()`pprev, Repr()`use
      ensures Valid() && Repr() <= old(Repr()) && f.addr in old(Contents())
      ensures Contents() == Aged(age, old(Contents()), now, {f.addr})
      ensures f in Repr() ==> view.links == old(view.links)
      ensures f !in Repr() ==>
        UnlinkReady(old(view.links), f) && view.links == UnlinkedFrom(old(view.links), f)
      ensures scdb == if old(scdb) == f && f !in Repr() then null else old(scdb)
    {
      ghost var was := view;
      EntryFacts(was, f, depth);
      AgedOne(age, was.table, now, f.addr);
      if Expired(age, f.time, now) {
        var zero := DecAndTest(f, was);
        if zero { Expunge(f, was); }
      }
    }

    /** AgeOne, and what is left of the chain behind `f`. */
    method SweepStep(f: Entry, now: Jiffies, ghost slot: Slot, ghost rest: seq<Entry>)
      returns (g: Entry?, ghost next: Slot)
      requires Valid() && ChainFrom(view.links, f, slot, rest)
      requires slot.NextOf? ==> slot.prev !in Elems(rest)
      modifies this`nethash, this`view, this`scdb, this`scdbMac, this`scdbIp
      modifies Repr()`next, Repr()`pprev, Repr()`use
      ensures Valid() && Repr() <= old(Repr()) && f.addr in old(Contents())
      ensures Contents() == Aged(age, old(Contents()), now, {f.addr})
      ensures ChainFrom(view.links, g, next, rest[1..])
      ensures next.NextOf? ==> next.prev !in Elems(rest[1..])
      ensures scdb == old(scdb) || (scdb == null && old(scdb) !in Repr())
    {
      g, next := f.next, slot;
      ghost var l := view.links;
      AgeOne(f, now);
      if f in Repr() {
        next := NextOf(f);
      } else {
        UnlinkChain(l, f, slot, rest, f);
      }
    }

    /** One round of the outer loop of nat25_db_expire. */
    method SweepBucket(i: Bucket, now: Jiffies, ghost m: Table)
      requires Valid() && Contents() == Aged(age, m, now, Below(hash, m, i))
      modifies this`nethash, this`view, this`scdb, this`scdbMac, this`scdbIp
      modifies Repr()`next, Repr()`pprev, Repr()`use
      ensures Valid() && Repr() <= old(Repr())
      ensures Contents() == Aged(age, m, now, Below(hash, m, i + 1))
      ensures scdb == old(scdb) || (scdb == null && old(scdb) !in Repr())
    {
      ChainAddrs(view, i, depth);
      ghost var slot, rest := Head(i), view.chains[i];
      SweepStarts(age, hash, m, now, i, Contents(), rest);
      var f := nethash[i];
      while f != null
        invariant Valid() && Repr() <= old(Repr())
        invariant ChainFrom(view.links, f, slot, rest)
        invariant slot.NextOf? ==> slot.prev !in Elems(rest)
        invariant AddrsDistinct(rest) && AddrsOf(rest) <= Below(hash, m, i + 1)
        invariant Contents() == SweptTo(age, hash, m, now, i, rest)
        invariant scdb == old(scdb) || (scdb == null && old(scdb) !in Repr())
        decreases |rest|
      {
        SweepMoves(age, hash, m, now, i, rest);
        f, slot := SweepStep(f, now, slot, rest);
        rest := rest[1..];
      }
      assert Below(hash, m, i + 1) - AddrsOf(rest) == Below(hash, m, i + 1);
    }

    /** nat25_db_expire */
    method Expire(now: Jiffies)
      requires Valid()
      modifies this`nethash, this`view, this`scdb, this`scdbMac, this`scdbIp
      modifies Repr()`next, Repr()`pprev, Repr()`use
      ensures Valid() && Repr() <= old(Repr())
      ensures Contents() == Sweep(age, old(Contents()), now)
      ensures scdb == old(scdb) || (scdb == null && old(scdb) !in Repr())
    {
      ghost var m := Contents();
      assert Below(hash, m, 0) == {};
      for i := 0 to HASH_SIZE
        invariant Valid() && Repr() <= old(Repr())
        invariant Contents() == Aged(age, m, now, Below(hash, m, i))
        invariant scdb == old(scdb) || (scdb == null && old(scdb) !in Repr())
      {
        SweepBucket(i, now, m);
      }
      assert Below(hash, m, HASH_SIZE) == m.Keys;
    }

    /** The body of the inner loop of nat25_db_cleanup, at the head of its chain. */
    method CleanStep(f: Entry, i: Bucket, ghost rest: seq<Entry>) returns (g: Entry?)
      requires Valid() && ChainFrom(view.links, f, Head(i), rest)
      modifies this`nethash, this`view, this`scdb, this`scdbMac, this`scdbIp
      modifies Repr()`next, Repr()`pprev
      ensures Valid() && Repr() <= old(Repr()) && Contents() == old(Contents()) - {f.addr}
      ensures ChainFrom(view.links, g, Head(i), rest[1..])
    {
      g := f.next;
      ForgetShortcut(f);
      UnlinkSound(view, f, depth);
      UnlinkChain(view.links, f, Head(i), rest, f);
      Unlink(f, WithUnlinked(view, f));
    }

    /** One round of the outer loop of nat25_db_cleanup. */
    method CleanBucket(i: Bucket)
      requires Valid() && forall a :: a in Contents() ==> hash(a) >= i
      modifies this`nethash, this`view, this`scdb, this`scdbMac, this`scdbIp
      modifies Repr()`next, Repr()`pprev
      ensures Valid() && Repr() <= old(Repr())
      ensures forall a :: a in Contents() ==> hash(a) >= i + 1
    {
      ChainAddrs(view, i, depth);
      ghost var rest := view.chains[i];
      var f := nethash[i];
      while f != null
        invariant Valid() && Repr() <= old(Repr())
        invariant ChainFrom(view.links, f, Head(i), rest)
        invariant forall a :: a in Contents() ==> hash(a) >= i + 1 || a in AddrsOf(rest)
        decreases |rest|
      {
        f := CleanStep(f, i, rest);
        rest := rest[1..];
      }
    }

    /** nat25_db_cleanup */
    method Cleanup()
      requires Valid()
      modifies this`nethash, this`view, this`scdb, this`scdbMac, this`scdbIp
      modifies Repr()`next, Repr()`pprev
      ensures Valid() && Contents() == map[] && Repr() == {} && scdb == null
    {
      for i := 0 to HASH_SIZE
        invariant Valid() && Repr() <= old(Repr())
        invariant forall a :: a in Contents() ==> hash(a) >= i
      {
        CleanBucket(i);
      }
      forall a ensures a !in Contents() { assert hash(a) < HASH_SIZE; }
      forall e | e in Repr() ensures e.addr in Contents() { EntryFacts(view, e, depth); }
    }
  }

  /** memcpy(skb->data, mac, ETH_ALEN) */
  method CopyMac(frame: array<Byte>, mac: Mac)
    requires frame.Length >= 6
    modifies frame
    ensures frame[..] == mac.Octets() + old(frame[6..])
  {
    forall n | 0 <= n < 6 { frame[n] := mac.Octets()[n]; }
    assert frame[6..] == old(frame[6..]);
    assert frame[..6] == mac.Octets();
    assert frame[..] == frame[..6] + frame[6..];
  }
}
