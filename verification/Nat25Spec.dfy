/** The NAT2.5 database of core/rtw_br_ext.c as a finite map from network address to
    (MAC, ageing time, use count), and what is true of every run over it. */
module Nat25Spec {
  import opened Bytes

  datatype Mac = Mac(b0: Byte, b1: Byte, b2: Byte, b3: Byte, b4: Byte, b5: Byte) {
    function Octets(): (s: seq<Byte>)
      ensures |s| == 6
    {
      [b0, b1, b2, b3, b4, b5]
    }
  }

  datatype RawAddr = RawAddr(bytes: seq<Byte>)
  type Addr = a: RawAddr | |a.bytes| == 17 witness RawAddr(seq(17, _ => 0))   // MAX_NETWORK_ADDR_LEN with IPv6

  const HASH_SIZE: nat := 16          // NAT25_HASH_SIZE
  const IPV4: Byte := 1
  const IPV6: Byte := 2
  const IPX: Byte := 3
  const APPLE: Byte := 4
  const PPPOE: Byte := 5

  // jiffies is an unsigned long and wraps.
  const JIFFIES_WRAP: nat := 0x1_0000_0000_0000_0000
  type Jiffies = t: nat | t < JIFFIES_WRAP

  function Low(v: bv8): (r: bv8)
    ensures r < 16
  {
    v & 0x0F
  }

  function XorAll(s: seq<Byte>): bv8 {
    if s == [] then 0 else (s[0] as bv8) ^ XorAll(s[1..])
  }

  /** The bytes __nat25_network_hash folds together, by address type. */
  function Hashed(a: Addr): seq<Byte> {
    if a.bytes[0] == IPV4 then a.bytes[7..11]
    else if a.bytes[0] == IPX then a.bytes[1..11]
    else if a.bytes[0] == APPLE then a.bytes[1..4]
    else if a.bytes[0] == PPPOE then a.bytes[0..9]
    else if a.bytes[0] == IPV6 then a.bytes[1..17]
    else a.bytes
  }

  type Bucket = h: nat | h < HASH_SIZE

  /** __nat25_network_hash */
  function Hash(a: Addr): Bucket {
    Low(XorAll(Hashed(a))) as nat
  }

  /** The bytes of an address that decide on its bucket, by the type in byte 0. */
  predicate Decides(kind: Byte, i: nat) {
    if kind == IPV4 then 7 <= i < 11
    else if kind == IPX then 1 <= i < 11
    else if kind == APPLE then 1 <= i < 4
    else if kind == PPPOE then i < 9
    else i < 17
  }

  /** Two addresses of a type that differ in one byte share a bucket exactly when that byte does not
      decide, or its low four bits agree. */
  lemma HashMeans(a: Addr, c: Addr, i: nat, b: Byte)
    requires 0 < i < 17 && c.bytes == a.bytes[i := b]
    ensures Hash(a) == Hash(c) <==> !Decides(a.bytes[0], i) || Low(a.bytes[i] as bv8) == Low(b as bv8)
  {
    var from := HashedFrom(a.bytes[0]);
    if Decides(a.bytes[0], i) {
      HashedAt(a, c, i, b, from, i - from);
      BucketMoves(Hashed(a), Hashed(c), i - from, b);
    } else {
      assert Hashed(a) == Hashed(c);
    }
  }

  function HashedFrom(kind: Byte): nat {
    if kind == IPV4 then 7 else if kind == IPX || kind == APPLE || kind == IPV6 then 1 else 0
  }

  lemma HashedAt(a: Addr, c: Addr, i: nat, b: Byte, from: nat, k: nat)
    requires 0 < i < 17 && c.bytes == a.bytes[i := b] && Decides(a.bytes[0], i)
    requires from == HashedFrom(a.bytes[0]) && i == from + k
    ensures k < |Hashed(a)| && Hashed(a)[k] == a.bytes[i] && Hashed(c) == Hashed(a)[k := b]
  {
  }

  lemma BucketMoves(s: seq<Byte>, t: seq<Byte>, k: nat, b: Byte)
    requires k < |s| && t == s[k := b]
    ensures Low(XorAll(s)) as nat == Low(XorAll(t)) as nat <==> Low(s[k] as bv8) == Low(b as bv8)
  {
    OneByte(s, k, b);
    BucketMovesBits(XorAll(s), XorAll(t), s[k] as bv8, b as bv8);
  }

  lemma BucketMovesBits(p: bv8, q: bv8, x: bv8, y: bv8)
    requires q == p ^ x ^ y
    ensures Low(p) as nat == Low(q) as nat <==> Low(x) == Low(y)
  {
    LowBits(p, q, x, y);
    SameNat(Low(p), Low(q));
  }

  lemma SameNat(x: bv8, y: bv8)
    ensures x as nat == y as nat <==> x == y
  {
  }

  lemma {:induction false} OneByte(s: seq<Byte>, i: nat, b: Byte)
    requires i < |s|
    ensures XorAll(s[i := b]) == XorAll(s) ^ (s[i] as bv8) ^ (b as bv8)
  {
    var t := s[i := b];
    if i == 0 {
      assert t[1..] == s[1..];
      Swap(s[0] as bv8, XorAll(s[1..]), b as bv8);
    } else {
      assert t[1..] == s[1..][i - 1 := b];
      OneByte(s[1..], i - 1, b);
      Regroup(s[0] as bv8, XorAll(s[1..]), s[i] as bv8, b as bv8);
    }
  }

  lemma Swap(x: bv8, r: bv8, y: bv8)
    ensures y ^ r == (x ^ r) ^ x ^ y
  {
  }

  lemma Regroup(x: bv8, r: bv8, y: bv8, z: bv8)
    ensures x ^ (r ^ y ^ z) == (x ^ r) ^ y ^ z
  {
  }

  lemma LowBits(p: bv8, q: bv8, x: bv8, y: bv8)
    requires q == p ^ x ^ y
    ensures Low(p) == Low(q) <==> Low(x) == Low(y)
  {
  }

  datatype Rec = Rec(mac: Mac, time: Jiffies, use: int)
  type Table = map<Addr, Rec>

  /** time_before_eq(t, now - age) on wrapping time. */
  predicate Expired(age: nat, t: Jiffies, now: Jiffies) {
    (now - age - t) % JIFFIES_WRAP < JIFFIES_WRAP / 2
  }

  /** `d` ticks after the entry was stamped it reads as expired exactly from its age on,
      until half the range of the clock has gone by. */
  lemma ExpiryWindow(age: nat, t: Jiffies, d: nat)
    requires age <= JIFFIES_WRAP / 2 && d < JIFFIES_WRAP
    ensures Expired(age, t, (t + d) % JIFFIES_WRAP) <==> age <= d < age + JIFFIES_WRAP / 2
  {
    var now := (t + d) % JIFFIES_WRAP;
    if t + d < JIFFIES_WRAP {
      assert now - age - t == d - age;
    } else {
      assert now == t + d - JIFFIES_WRAP;
      assert now - age - t == d - age - JIFFIES_WRAP;
    }
  }

  // ---- the operations ---------------------------------------------------------------

  function Insert(m: Table, a: Addr, mac: Mac, now: Jiffies): Table {
    m[a := if a in m then m[a].(mac := mac, time := now) else Rec(mac, now, 1)]
  }

  function Lookup(age: nat, m: Table, a: Addr, now: Jiffies): Table {
    if a in m && !Expired(age, m[a].time, now) then m[a := m[a].(use := m[a].use + 1)] else m
  }

  function AgeRec(age: nat, r: Rec, now: Jiffies): Rec {
    if Expired(age, r.time, now) then r.(use := r.use - 1) else r
  }

  predicate Dies(age: nat, r: Rec, now: Jiffies) {
    Expired(age, r.time, now) && r.use == 1
  }

  /** The table after the addresses in `d` have been visited by a sweep. */
  function Aged(age: nat, m: Table, now: Jiffies, d: set<Addr>): Table {
    map a | a in m && !(a in d && Dies(age, m[a], now)) ::
      if a in d then AgeRec(age, m[a], now) else m[a]
  }

  function Sweep(age: nat, m: Table, now: Jiffies): Table {
    Aged(age, m, now, m.Keys)
  }

  lemma AgedOne(age: nat, m: Table, now: Jiffies, a: Addr)
    requires a in m
    ensures Aged(age, m, now, {a}) ==
      if Dies(age, m[a], now) then m - {a} else m[a := AgeRec(age, m[a], now)]
  {
  }

  lemma AgedOneMore(age: nat, m: Table, now: Jiffies, d: set<Addr>, a: Addr)
    requires a in m && a !in d
    ensures Aged(age, Aged(age, m, now, d), now, {a}) == Aged(age, m, now, d + {a})
  {
  }

  // ---- what they mean, entry by entry -----------------------------------------------

  /** A lookup counts a use of an entry from when it was stamped until its age is up, and touches
      nothing else. */
  lemma LookupMeans(age: nat, m: Table, a: Addr, d: nat)
    requires a in m && age <= JIFFIES_WRAP / 2 && d < JIFFIES_WRAP
    ensures var r, t := m[a], Lookup(age, m, a, (m[a].time + d) % JIFFIES_WRAP);
      && t.Keys == m.Keys && (forall b :: b in m && b != a ==> t[b] == m[b])
      && t[a] == Rec(r.mac, r.time, if age <= d < age + JIFFIES_WRAP / 2 then r.use else r.use + 1)
  {
    ExpiryWindow(age, m[a].time, d);
  }

  lemma InsertMeans(m: Table, a: Addr, mac: Mac, now: Jiffies)
    ensures var t := Insert(m, a, mac, now);
      && t.Keys == m.Keys + {a} && (forall b :: b in m && b != a ==> t[b] == m[b])
      && t[a].mac == mac && t[a].time == now && t[a].use == if a in m then m[a].use else 1
  {
  }

  /** A sweep takes one use from each expired entry, and the entry with the last one. */
  lemma SweepMeans(age: nat, m: Table, now: Jiffies, a: Addr)
    ensures var t := Sweep(age, m, now);
      && (a in t <==> a in m && !(Expired(age, m[a].time, now) && m[a].use == 1))
      && (a in t ==> t[a] == Rec(m[a].mac, m[a].time,
                                 if Expired(age, m[a].time, now) then m[a].use - 1 else m[a].use))
  {
  }

  // ---- runs -------------------------------------------------------------------------

  datatype Op =
    | OpInsert(a: Addr, mac: Mac, now: Jiffies)
    | OpLookup(a: Addr, now: Jiffies)
    | OpSweep(now: Jiffies)
    | OpCleanup

  function Apply(age: nat, m: Table, op: Op): Table {
    match op
    case OpInsert(a, mac, now) => Insert(m, a, mac, now)
    case OpLookup(a, now) => Lookup(age, m, a, now)
    case OpSweep(now) => Sweep(age, m, now)
    case OpCleanup => map[]
  }

  /** The table after the operations of `ops`, the last of them applied last. */
  function After(age: nat, m: Table, ops: seq<Op>): Table {
    if ops == [] then m else Apply(age, After(age, m, ops[..|ops| - 1]), ops[|ops| - 1])
  }

  predicate Counted(m: Table) {
    forall a :: a in m ==> m[a].use >= 1
  }

  lemma ApplyCounted(age: nat, m: Table, op: Op)
    requires Counted(m)
    ensures Counted(Apply(age, m, op))
  {
  }

  lemma {:induction false} AfterCounted(age: nat, m: Table, ops: seq<Op>)
    requires Counted(m)
    ensures Counted(After(age, m, ops))
    ensures ops != [] && ops[|ops| - 1] == OpCleanup ==> After(age, m, ops) == map[]
  {
    if ops != [] {
      AfterCounted(age, m, ops[..|ops| - 1]);
      ApplyCounted(age, After(age, m, ops[..|ops| - 1]), ops[|ops| - 1]);
    }
  }

  /** Lookups of `a` in `ops` that found it unexpired. */
  function Hits(age: nat, m: Table, ops: seq<Op>, a: Addr): nat {
    if ops == [] then 0
    else
      var op := ops[|ops| - 1];
      var before := After(age, m, ops[..|ops| - 1]);
      Hits(age, m, ops[..|ops| - 1], a)
      + if op.OpLookup? && op.a == a && a in before && !Expired(age, before[a].time, op.now) then 1 else 0
  }

  /** Sweeps in `ops` that found `a` expired. */
  function Sweeps(age: nat, m: Table, ops: seq<Op>, a: Addr): nat {
    if ops == [] then 0
    else
      var op := ops[|ops| - 1];
      var before := After(age, m, ops[..|ops| - 1]);
      Sweeps(age, m, ops[..|ops| - 1], a)
      + if op.OpSweep? && a in before && Expired(age, before[a].time, op.now) then 1 else 0
  }

  /** `a` is in the table after every non-empty beginning of `ops`. */
  predicate StaysLinked(age: nat, m: Table, ops: seq<Op>, a: Addr) {
    forall n :: 1 <= n <= |ops| ==> a in After(age, m, ops[..n])
  }

  lemma StaysLinkedShorter(age: nat, m: Table, ops: seq<Op>, a: Addr)
    requires ops != [] && StaysLinked(age, m, ops, a)
    ensures StaysLinked(age, m, ops[..|ops| - 1], a)
  {
    var front := ops[..|ops| - 1];
    forall n | 1 <= n <= |front|
      ensures a in After(age, m, front[..n])
    {
      assert front[..n] == ops[..n];
    }
  }

  /** Conservation of the use count: while linked it is one, plus the unexpired hits,
      minus the sweeps that found the entry expired, and at least one.
      `ops` begins with the operation that links `a`. */
  lemma {:induction false} UseCountConserved(age: nat, m: Table, ops: seq<Op>, a: Addr)
    requires Counted(m) && a !in m && ops != [] && StaysLinked(age, m, ops, a)
    ensures a in After(age, m, ops)
    ensures var r := After(age, m, ops)[a];
      && r.use == 1 + Hits(age, m, ops, a) - Sweeps(age, m, ops, a)
      && r.use >= 1
    decreases |ops|
  {
    AfterCounted(age, m, ops);
    var front := ops[..|ops| - 1];
    assert ops[..|ops|] == ops;
    if front == [] {
      assert After(age, m, front) == m;
      assert Hits(age, m, front, a) == 0 && Sweeps(age, m, front, a) == 0;
    } else {
      StaysLinkedShorter(age, m, ops, a);
      UseCountConserved(age, m, front, a);
    }
  }

  /** No operation refreshes `a` or sees it unexpired, so it only ages. */
  predicate LeftToExpire(age: nat, t: Jiffies, ops: seq<Op>, a: Addr) {
    forall i :: 0 <= i < |ops| ==>
      match ops[i]
      case OpInsert(b, _, _) => b != a
      case OpLookup(b, now) => b == a ==> Expired(age, t, now)
      case OpSweep(now) => Expired(age, t, now)
      case OpCleanup => false
  }

  function SweepsIn(ops: seq<Op>): nat {
    if ops == [] then 0 else SweepsIn(ops[..|ops| - 1]) + if ops[|ops| - 1].OpSweep? then 1 else 0
  }

  /** An expired entry that nobody refreshes is unlinked at exactly its use-count-th sweep. */
  lemma {:induction false} UnlinkedAtNthSweep(age: nat, m: Table, ops: seq<Op>, a: Addr)
    requires Counted(m) && a in m && LeftToExpire(age, m[a].time, ops, a)
    ensures a in After(age, m, ops) <==> SweepsIn(ops) < m[a].use
    ensures SweepsIn(ops) < m[a].use ==>
      After(age, m, ops)[a] == m[a].(use := m[a].use - SweepsIn(ops))
    decreases |ops|
  {
    if ops != [] {
      var front := ops[..|ops| - 1];
      var op := ops[|ops| - 1];
      assert forall i :: 0 <= i < |front| ==> front[i] == ops[i];
      UnlinkedAtNthSweep(age, m, front, a);
    }
  }
}
