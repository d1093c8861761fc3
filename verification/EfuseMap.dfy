/** Patching the logical e-fuse map (core/rtw_efuse.c): an unaligned byte write becomes
    writes of 8-byte sections with one enable bit for each 16-bit word. */
module EfuseMap {
  import opened Bytes

  type Section = d: seq<Byte> | |d| == SECTION witness seq(SECTION, _ => 0)

  const SECTION: nat := 8        // PGPKT_DATA_SIZE
  const NO_WORDS: bv8 := 0xF     // word_en with every word disabled

  /** BIT(k) for the four words of a section; a cleared bit enables the word. */
  function Bit(k: nat): bv8
    requires k < 4
  {
    if k == 0 then 1 else if k == 1 then 2 else if k == 2 then 4 else 8
  }

  predicate WordOn(en: bv8, k: nat)
    requires k < 4
  {
    en & Bit(k) == 0
  }

  /** word_en &= ~BIT(j) */
  function Enable(en: bv8, j: nat): bv8
    requires j < 4
  {
    en & !Bit(j)
  }

  lemma ClearBit(en: bv8, j: nat, k: nat)
    requires j < 4 && k < 4
    ensures WordOn(Enable(en, j), k) <==> k == j || WordOn(en, k)
    ensures en <= NO_WORDS ==> Enable(en, j) <= NO_WORDS
  {
  }

  function Enables(c: nat -> bool): bv8 {
    (if c(0) then 0 else 1) | (if c(1) then 0 else 2) | (if c(2) then 0 else 4) | (if c(3) then 0 else 8)
  }

  lemma EnablesUnique(en: bv8, c: nat -> bool)
    requires en <= NO_WORDS && forall k :: 0 <= k < 4 ==> (WordOn(en, k) <==> c(k))
    ensures en == Enables(c)
  {
    assert WordOn(en, 0) == c(0) && WordOn(en, 1) == c(1) && WordOn(en, 2) == c(2) && WordOn(en, 3) == c(3);
  }

  // ---- what a write should do -------------------------------------------------------

  /** The sections before byte n already new, the rest still old. */
  function PatchedTo(was: seq<Byte>, want: seq<Byte>, n: nat): seq<Byte>
    requires |was| == |want|
  {
    seq(|was|, j requires 0 <= j < |was| => if j < n then want[j] else was[j])
  }

  predicate Differ(was: seq<Byte>, want: seq<Byte>, j: nat) {
    j < |was| && j < |want| && was[j] != want[j]
  }

  /** The content of word k of section s must change. */
  predicate Changed(was: seq<Byte>, want: seq<Byte>, s: nat, k: nat) {
    Differ(was, want, SECTION * s + 2 * k) || Differ(was, want, SECTION * s + 2 * k + 1)
  }

  predicate SectionChanged(was: seq<Byte>, want: seq<Byte>, s: nat) {
    exists k :: 0 <= k < 4 && Changed(was, want, s, k)
  }

  /** One call of the section writer. */
  datatype Write = Write(offset: nat, en: bv8, data: Section)

  /** The section buffer: new content in the words that change, 0xFF in the others. */
  function Image(was: seq<Byte>, want: seq<Byte>, s: nat): Section {
    seq(SECTION, j requires 0 <= j < SECTION =>
      if SECTION * s + j < |want| && Changed(was, want, s, j / 2) then want[SECTION * s + j] else 255)
  }

  function SectionWrite(was: seq<Byte>, want: seq<Byte>, s: nat): Write {
    Write(s, Enables((k: nat) => Changed(was, want, s, k)), Image(was, want, s))
  }

  /** The writes that turn sections from..to of `was` into `want`: one for each section that
      changes, none for the others. */
  function Plan(was: seq<Byte>, want: seq<Byte>, from: nat, to: nat): seq<Write> {
    if from >= to then []
    else Plan(was, want, from, to - 1)
         + if SectionChanged(was, want, to - 1) then [SectionWrite(was, want, to - 1)] else []
  }

  /** What the section writer does to the map: it replaces exactly the enabled words. */
  function PatchSection(cells: seq<Byte>, s: nat, en: bv8, data: Section): seq<Byte> {
    seq(|cells|, j requires 0 <= j < |cells| =>
      if j / SECTION == s && WordOn(en, j % SECTION / 2) then data[j % SECTION] else cells[j])
  }

  /** A word is enabled exactly when its content must change, and a section is written
      exactly when one of its words is. */
  lemma EnabledExactlyWhenChanged(was: seq<Byte>, want: seq<Byte>, s: nat, k: nat)
    requires k < 4
    ensures WordOn(SectionWrite(was, want, s).en, k) <==> Changed(was, want, s, k)
    ensures SectionWrite(was, want, s).en != NO_WORDS <==> SectionChanged(was, want, s)
  {
    var c := (k: nat) => Changed(was, want, s, k);
    EnablesBits(c(0), c(1), c(2), c(3));
  }

  lemma EnablesBits(c0: bool, c1: bool, c2: bool, c3: bool)
    ensures var en := (if c0 then 0 else 1) | (if c1 then 0 else 2) | (if c2 then 0 else 4)
               | (if c3 then 0 else 8) as bv8;
      && (WordOn(en, 0) <==> c0) && (WordOn(en, 1) <==> c1)
      && (WordOn(en, 2) <==> c2) && (WordOn(en, 3) <==> c3)
      && (en == NO_WORDS <==> !c0 && !c1 && !c2 && !c3)
  {
  }

  /** Writing one section of the plan moves the frontier past it. */
  lemma SectionDone(was: seq<Byte>, want: seq<Byte>, s: nat, from: nat, end: nat)
    requires |was| == |want| && from == SECTION * s && end == from + SECTION
    ensures var w := SectionWrite(was, want, s);
      PatchSection(PatchedTo(was, want, from), s, w.en, w.data) == PatchedTo(was, want, end)
    ensures !SectionChanged(was, want, s) ==> PatchedTo(was, want, from) == PatchedTo(was, want, end)
  {
    var w := SectionWrite(was, want, s);
    var a, b := PatchedTo(was, want, from), PatchedTo(was, want, end);
    forall j | 0 <= j < |was|
      ensures PatchSection(a, s, w.en, w.data)[j] == b[j]
      ensures !SectionChanged(was, want, s) ==> a[j] == b[j]
    {
      var k := j % SECTION / 2;
      EnabledExactlyWhenChanged(was, want, s, k);
      if j / SECTION == s {
        assert j == SECTION * s + j % SECTION;
        assert Differ(was, want, j) ==> Changed(was, want, s, k);
      }
    }
  }

  /** Carrying out the plan is the write. */
  lemma {:induction false} PlanPatches(was: seq<Byte>, want: seq<Byte>, from: nat, to: nat, start: nat, end: nat)
    requires |was| == |want| && from <= to && start == SECTION * from && end == SECTION * to
    ensures Carried(PatchedTo(was, want, start), Plan(was, want, from, to)) == PatchedTo(was, want, end)
  {
    if from < to {
      var t, e := to - 1, end - SECTION;
      PlanPatches(was, want, from, t, start, e);
      SectionDone(was, want, t, e, end);
      var p, w := Plan(was, want, from, t), SectionWrite(was, want, t);
      if SectionChanged(was, want, t) {
        CarriedOne(PatchedTo(was, want, start), p, w);
        assert Plan(was, want, from, to) == p + [w];
      } else {
        assert Plan(was, want, from, to) == p;
      }
    }
  }

  lemma CarriedOne(cells: seq<Byte>, ws: seq<Write>, w: Write)
    ensures Carried(cells, ws + [w]) == PatchSection(Carried(cells, ws), w.offset, w.en, w.data)
  {
    assert (ws + [w])[..|ws|] == ws;
  }

  /** The plan writes only sections that change, in ascending order ... */
  lemma {:induction false} PlanWritesOnlyChanges(was: seq<Byte>, want: seq<Byte>, from: nat, to: nat, i: nat)
    requires i < |Plan(was, want, from, to)|
    ensures var plan := Plan(was, want, from, to); var s := plan[i].offset;
      && from <= s < to && SectionChanged(was, want, s) && plan[i] == SectionWrite(was, want, s)
      && (i > 0 ==> plan[i - 1].offset < s)
  {
    if i < |Plan(was, want, from, to - 1)| {
      PlanWritesOnlyChanges(was, want, from, to - 1, i);
    } else if i > 0 {
      PlanWritesOnlyChanges(was, want, from, to - 1, i - 1);
    }
  }

  /** ... and every one of them. */
  lemma {:induction false} PlanWritesAllChanges(was: seq<Byte>, want: seq<Byte>, from: nat, to: nat, s: nat)
    requires from <= s < to && SectionChanged(was, want, s)
    ensures SectionWrite(was, want, s) in Plan(was, want, from, to)
  {
    if s < to - 1 { PlanWritesAllChanges(was, want, from, to - 1, s); }
  }

  function Carried(cells: seq<Byte>, ws: seq<Write>): seq<Byte> {
    if ws == [] then cells
    else
      var w := ws[|ws| - 1];
      PatchSection(Carried(cells, ws[..|ws| - 1]), w.offset, w.en, w.data)
  }

  // ---- the code ---------------------------------------------------------------------

  /** The first m words of section s are settled in the section buffer, the others are
      still off. */
  predicate Settled(was: seq<Byte>, want: seq<Byte>, s: nat, m: nat, en: bv8, buf: Section) {
    && en <= NO_WORDS
    && (forall k :: 0 <= k < 4 ==> (WordOn(en, k) <==> k < m && Changed(was, want, s, k)))
    && (forall j :: 0 <= j < SECTION ==>
          buf[j] == if j / 2 < m && SECTION * s + j < |want| && Changed(was, want, s, j / 2)
                    then want[SECTION * s + j] else 255)
  }

  function Blank(): Section { seq(SECTION, _ => 255) }
  /** The buffer after m words of section s. */
  function Filled(was: seq<Byte>, want: seq<Byte>, s: nat, m: nat): (bv8, Section)
    requires m <= 4
  {
    if m == 0 then (NO_WORDS, Blank())
    else
      var (en, buf) := Filled(was, want, s, m - 1);
      var at := SECTION * s + 2 * (m - 1);
      if Changed(was, want, s, m - 1) && at + 1 < |want|
      then (Enable(en, m - 1), buf[2 * (m - 1) := want[at]][2 * (m - 1) + 1 := want[at + 1]])
      else (en, buf)
  }

  lemma {:induction false} FilledIsSettled(was: seq<Byte>, want: seq<Byte>, s: nat, m: nat)
    requires |was| == |want| && |was| % 2 == 0 && m <= 4
    ensures Settled(was, want, s, m, Filled(was, want, s, m).0, Filled(was, want, s, m).1)
  {
    if m > 0 {
      FilledIsSettled(was, want, s, m - 1);
      var (en, buf) := Filled(was, want, s, m - 1);
      if Changed(was, want, s, m - 1) {
        TurnWordOn(was, want, s, m - 1, en, buf, Filled(was, want, s, m).1);
      } else {
        forall j | 0 <= j < SECTION && j / 2 == m - 1 ensures buf[j] == 255 { }
      }
    }
  }

  lemma {:induction false} NothingFilled(was: seq<Byte>, want: seq<Byte>, s: nat, m: nat)
    requires m <= 4 && forall k :: 0 <= k < m ==> !Changed(was, want, s, k)
    ensures Filled(was, want, s, m) == Filled(was, want, s, 0)
  {
    if m > 0 { NothingFilled(was, want, s, m - 1); }
  }

  /** The bytes of `data` from idx on decide word m of the section. */
  lemma FillWord(was: seq<Byte>, addr: nat, data: seq<Byte>, idx: nat, s: nat, m: nat)
    requires |was| % 2 == 0 && addr + |data| <= |was| && idx < |data| && m < 4
    requires addr + idx == SECTION * s + 2 * m
    ensures addr + idx + 1 < |was| && 2 * m / 2 == m
    ensures var want := Patched(was, addr, data); var (en, buf) := Filled(was, want, s, m);
      var next := if idx + 1 == |data| then was[addr + idx + 1] else data[idx + 1];
      Filled(was, want, s, m + 1)
      == if data[idx] != was[addr + idx] || next != was[addr + idx + 1]
         then (Enable(en, m), buf[2 * m := data[idx]][2 * m + 1 := next])
         else (en, buf)
  {
    var want := Patched(was, addr, data);
    assert want[addr + idx] == data[idx];
  }

  lemma TurnWordOn(was: seq<Byte>, want: seq<Byte>, s: nat, m: nat, en: bv8, buf: Section, buf': Section)
    requires m < 4 && Settled(was, want, s, m, en, buf)
    requires Changed(was, want, s, m) && SECTION * s + 2 * m + 1 < |want|
    requires buf' == buf[2 * m := want[SECTION * s + 2 * m]][2 * m + 1 := want[SECTION * s + 2 * m + 1]]
    ensures Settled(was, want, s, m + 1, Enable(en, m), buf')
  {
    var en' := Enable(en, m);
    ClearBit(en, m, m);
    forall k | 0 <= k < 4 ensures WordOn(en', k) <==> k < m + 1 && Changed(was, want, s, k) {
      ClearBit(en, m, k);
    }
    forall j | 0 <= j < SECTION
      ensures buf'[j] == if j / 2 < m + 1 && SECTION * s + j < |want| && Changed(was, want, s, j / 2)
                         then want[SECTION * s + j] else 255
    {
      if j / 2 == m { assert j == 2 * m || j == 2 * m + 1; }
    }
  }

  /** A settled buffer with no later word to change is the planned section. */
  lemma PlanSettled(was: seq<Byte>, want: seq<Byte>, s: nat, m: nat, en: bv8, buf: Section)
    requires Settled(was, want, s, m, en, buf)
    requires forall k :: m <= k < 4 ==> !Changed(was, want, s, k)
    ensures Write(s, en, buf) == SectionWrite(was, want, s)
    ensures en != NO_WORDS <==> SectionChanged(was, want, s)
  {
    EnablesUnique(en, (k: nat) => Changed(was, want, s, k));
    EnabledExactlyWhenChanged(was, want, s, 0);
    assert buf == Image(was, want, s);
  }

  /** All words settled: the buffer holds the planned write. */
  lemma FullySettled(was: seq<Byte>, want: seq<Byte>, s: nat, m: nat)
    requires |was| == |want| && |was| % 2 == 0 && m == 4
    ensures var (en, buf) := Filled(was, want, s, m);
      Write(s, en, buf) == SectionWrite(was, want, s) && (en != NO_WORDS <==> SectionChanged(was, want, s))
  {
    FilledIsSettled(was, want, s, m);
    var (en, buf) := Filled(was, want, s, m);
    PlanSettled(was, want, s, m, en, buf);
  }

  /** Behind the data nothing is left to settle. */
  lemma {:induction false} NothingLater(was: seq<Byte>, addr: nat, data: seq<Byte>, s: nat, m: nat, n: nat)
    requires addr + |data| <= |was| && addr + |data| <= SECTION * s + 2 * m && m <= n <= 4
    ensures Filled(was, Patched(was, addr, data), s, n) == Filled(was, Patched(was, addr, data), s, m)
  {
    if m < n { NothingLater(was, addr, data, s, m, n - 1); }
  }

  /** Section and word of a byte. */
  lemma Position(addr: nat) returns (s: nat, m: nat)
    ensures s == addr / SECTION && m < 4 && addr == SECTION * s + addr % SECTION
    ensures addr % SECTION == 2 * m + addr % SECTION % 2
  {
    s, m := addr / SECTION, addr % SECTION / 2;
  }

  /** An odd start: the word holding byte addr keeps its low byte. Here z is 0, the empty
      section buffer. */
  lemma OddStart(was: seq<Byte>, addr: nat, data: seq<Byte>, s: nat, m: nat, z: nat)
    requires data != [] && addr + |data| <= |was| && m < 4 && addr == SECTION * s + 2 * m + 1 && z == 0
    ensures var want := Patched(was, addr, data); var (en, buf) := Filled(was, want, s, z);
      Filled(was, want, s, m + 1)
      == if data[0] != was[addr] then (Enable(en, m), buf[2 * m := was[addr - 1]][2 * m + 1 := data[0]])
         else (en, buf)
  {
    NothingFilled(was, Patched(was, addr, data), s, m);
  }

  lemma EvenStart(was: seq<Byte>, addr: nat, data: seq<Byte>, s: nat, m: nat, z: nat)
    requires addr + |data| <= |was| && m < 4 && addr == SECTION * s + 2 * m && z == 0
    ensures Filled(was, Patched(was, addr, data), s, m) == Filled(was, Patched(was, addr, data), s, z)
  {
    NothingFilled(was, Patched(was, addr, data), s, m);
  }

  /** What flushing one settled section does to the map and to the log of writes. */
  lemma SectionFlushed(was: seq<Byte>, want: seq<Byte>, from: nat, s: nat, m: nat)
    requires |was| == |want| && |was| % 2 == 0 && m == 4 && from <= s
    ensures var (en, buf) := Filled(was, want, s, m);
      var a, b := PatchedTo(was, want, SECTION * s), PatchedTo(was, want, SECTION * (s + 1));
      var p, q := Plan(was, want, from, s), Plan(was, want, from, s + 1);
      if en == NO_WORDS then a == b && p == q
      else PatchSection(a, s, en, buf) == b && p + [Write(s, en, buf)] == q
           && Write(s, en, buf) == SectionWrite(was, want, s) && SectionChanged(was, want, s)
  {
    FullySettled(was, want, s, m);
    SectionDone(was, want, s, SECTION * s, SECTION * (s + 1));
    var p := Plan(was, want, from, s);
    assert p + [] == p;
  }

  /** Sections behind the data add nothing to the plan, earlier ones stay a prefix of it. */
  lemma {:induction false} PlanExtends(was: seq<Byte>, want: seq<Byte>, from: nat, s: nat, to: nat)
    requires s <= to
    ensures Plan(was, want, from, s) <= Plan(was, want, from, to)
    ensures (forall t :: s <= t < to ==> !SectionChanged(was, want, t)) ==>
      Plan(was, want, from, s) == Plan(was, want, from, to)
  {
    if s < to && from < to {
      PlanExtends(was, want, from, s, to - 1);
      assert SectionChanged(was, want, to - 1) || Plan(was, want, from, to) == Plan(was, want, from, to - 1);
    }
  }

  lemma Edges(was: seq<Byte>, addr: nat, data: seq<Byte>, n: nat)
    requires addr + |data| <= |was|
    ensures n <= addr ==> PatchedTo(was, Patched(was, addr, data), n) == was
    ensures addr + |data| <= n ==> PatchedTo(was, Patched(was, addr, data), n) == Patched(was, addr, data)
    ensures forall t :: addr + |data| <= SECTION * t ==> !SectionChanged(was, Patched(was, addr, data), t)
  {
  }

  /** The section writer succeeds n times in a row, starting with call number `from`. */
  predicate AllWork(works: nat -> bool, from: nat, n: nat) {
    n == 0 || (AllWork(works, from, n - 1) && works(from + n - 1))
  }

  lemma {:induction false} AllWorkUpTo(works: nat -> bool, from: nat, n: nat)
    ensures AllWork(works, from, n) <==> forall k :: from <= k < from + n ==> works(k)
  {
    if n > 0 { AllWorkUpTo(works, from, n - 1); }
  }

  function LastSection(addr: nat, data: seq<Byte>): nat {
    (addr + |data| + SECTION - 1) / SECTION
  }

  /** What an in-range map write leaves behind. It succeeds exactly when every planned section
      write does; then the map is patched. Otherwise exactly the sections before the first
      failing write are patched. `log` and `writes` are the calls of the section writer before
      and after. */
  predicate Wrote(was: seq<Byte>, addr: nat, data: seq<Byte>, works: nat -> bool, log: seq<Write>,
                  ok: bool, cells: seq<Byte>, writes: seq<Write>)
    requires addr + |data| <= |was|
  {
    var want, first, end := Patched(was, addr, data), addr / SECTION, LastSection(addr, data);
    && (ok <==> AllWork(works, |log|, |Plan(was, want, first, end)|))
    && (ok ==> cells == want && writes == log + Plan(was, want, first, end))
    && (!ok ==> exists s :: first <= s < end && StoppedAt(was, want, first, s, log, cells, writes))
  }

  /** A failed write of section s: the sections before it are patched, it and the later ones
      are not. */
  predicate StoppedAt(was: seq<Byte>, want: seq<Byte>, first: nat, s: nat, log: seq<Write>,
                      cells: seq<Byte>, writes: seq<Write>)
    requires |was| == |want|
  {
    && cells == PatchedTo(was, want, SECTION * s)
    && writes == log + Plan(was, want, first, s) + [SectionWrite(was, want, s)]
  }

  /** The frontier: the sections before s are written, without a failure. */
  predicate Reached(was: seq<Byte>, addr: nat, data: seq<Byte>, works: nat -> bool, log: seq<Write>, s: nat,
                    cells: seq<Byte>, writes: seq<Write>)
    requires addr + |data| <= |was|
  {
    var want, plan := Patched(was, addr, data), Plan(was, Patched(was, addr, data), addr / SECTION, s);
    cells == PatchedTo(was, want, SECTION * s) && writes == log + plan && AllWork(works, |log|, |plan|)
  }

  lemma Finished(was: seq<Byte>, addr: nat, data: seq<Byte>, works: nat -> bool, log: seq<Write>, s: nat,
                 cells: seq<Byte>, writes: seq<Write>)
    requires addr + |data| <= |was| && addr + |data| <= SECTION * s
    requires Reached(was, addr, data, works, log, s, cells, writes)
    ensures Wrote(was, addr, data, works, log, true, cells, writes)
  {
    Edges(was, addr, data, SECTION * s);
    PlanExtends(was, Patched(was, addr, data), addr / SECTION, LastSection(addr, data), s);
  }

  lemma Stopped(was: seq<Byte>, addr: nat, data: seq<Byte>, works: nat -> bool, log: seq<Write>, s: nat,
                cells: seq<Byte>, writes: seq<Write>)
    requires addr + |data| <= |was| && addr / SECTION <= s
    requires var want := Patched(was, addr, data);
      && SectionChanged(was, want, s) && !works(|log| + |Plan(was, want, addr / SECTION, s)|)
      && StoppedAt(was, want, addr / SECTION, s, log, cells, writes)
    ensures Wrote(was, addr, data, works, log, false, cells, writes)
  {
    var want, first, end := Patched(was, addr, data), addr / SECTION, LastSection(addr, data);
    Edges(was, addr, data, 0);
    PlanExtends(was, want, first, s + 1, end);
    AllWorkUpTo(works, |log|, |Plan(was, want, first, end)|);
  }

  /** From one frontier to the next, or to the failure of this section's write. */
  lemma SectionOutcome(was: seq<Byte>, addr: nat, data: seq<Byte>, works: nat -> bool, log: seq<Write>, s: nat, m: nat,
                       next: nat, cells: seq<Byte>, writes: seq<Write>)
    requires addr + |data| <= |was| && |was| % 2 == 0 && addr / SECTION <= s && m == 4 && next == s + 1
    requires Reached(was, addr, data, works, log, s, cells, writes)
    ensures var (en, buf) := Filled(was, Patched(was, addr, data), s, m);
      var writes' := writes + [Write(s, en, buf)];
      if en == NO_WORDS then Reached(was, addr, data, works, log, next, cells, writes)
      else if works(|writes|)
      then Reached(was, addr, data, works, log, next, PatchSection(cells, s, en, buf), writes')
      else Wrote(was, addr, data, works, log, false, cells, writes')
  {
    var want, first := Patched(was, addr, data), addr / SECTION;
    SectionFlushed(was, want, first, s, m);
    var (en, buf) := Filled(was, want, s, m);
    var w := Write(s, en, buf);
    assert log + (Plan(was, want, first, s) + [w]) == writes + [w];
    if en != NO_WORDS && !works(|writes|) {
      Stopped(was, addr, data, works, log, s, cells, writes + [w]);
    }
  }

  /** efuse_WordEnableDataRead: copies exactly the words enabled by word_en. */
  method WordEnableDataRead(wordEn: bv8, sour: array<Byte>, target: array<Byte>)
    requires sour.Length >= SECTION && target.Length >= SECTION && sour != target
    modifies target
    ensures forall j :: 0 <= j < SECTION ==> target[j] == if WordOn(wordEn, j / 2) then sour[j] else old(target[j])
    ensures forall j :: SECTION <= j < target.Length ==> target[j] == old(target[j])
  {
    if wordEn & Bit(0) == 0 { target[0], target[1] := sour[0], sour[1]; }
    if wordEn & Bit(1) == 0 { target[2], target[3] := sour[2], sour[3]; }
    if wordEn & Bit(2) == 0 { target[4], target[5] := sour[4], sour[5]; }
    if wordEn & Bit(3) == 0 { target[6], target[7] := sour[6], sour[7]; }
  }

  /** The logical map of one adapter. The section writer belongs to the chip: `works` says
      which of its calls succeed, by their number since power-up. */
  class Efuse {
    const mapLen: nat
    const works: nat -> bool
    var cells: seq<Byte>
    var writes: seq<Write>

    /** The section number is one byte wide and a map holds whole words. */
    ghost predicate Valid()
      reads this
    {
      |cells| == mapLen && mapLen % 2 == 0 && mapLen <= 256 * SECTION
    }

    constructor (cells: seq<Byte>, works: nat -> bool)
      requires |cells| % 2 == 0 && |cells| <= 256 * SECTION
      ensures Valid() && this.cells == cells && this.works == works && writes == []
    {
      mapLen := |cells|;
      this.works := works;
      this.cells := cells;
      writes := [];
    }

    /** Efuse_PgPacketWrite, as far as the map shows it. */
    method PgPacketWrite(offset: nat, en: bv8, newdata: array<Byte>) returns (ok: bool)
      requires Valid() && newdata.Length == SECTION
      modifies this
      ensures Valid() && ok == works(|old(writes)|)
      ensures writes == old(writes) + [Write(offset, en, newdata[..])]
      ensures cells == if ok then PatchSection(old(cells), offset, en, newdata[..]) else old(cells)
    {
      ok := works(|writes|);
      if ok { cells := PatchSection(cells, offset, en, newdata[..]); }
      writes := writes + [Write(offset, en, newdata[..])];
    }

    /** rtw_efuse_map_read. */
    method MapRead(addr: nat, cnts: nat, data: array<Byte>) returns (ok: bool)
      requires Valid() && data.Length >= cnts
      modifies data
      ensures ok <==> addr + cnts <= mapLen
      ensures ok ==> data[..cnts] == cells[addr..addr + cnts] && data[cnts..] == old(data[cnts..])
      ensures !ok ==> data[..] == old(data[..])
    {
      if addr + cnts > mapLen { return false; }
      forall i | 0 <= i < cnts { data[i] := cells[addr + i]; }
      return true;
    }

    /** The head of rtw_efuse_map_write: an odd start takes half a word first. m words of
        section s are settled then. */
    static method StartSection(current: seq<Byte>, addr: nat, data: seq<Byte>, ghost want: seq<Byte>,
                               ghost s: nat, ghost m0: nat, ghost z: nat, en0: bv8, newdata: array<Byte>)
      returns (i: nat, idx: nat, en: bv8, ghost m: nat)
      requires addr + |data| <= |current| && want == Patched(current, addr, data)
      requires newdata.Length == SECTION && z == 0 && m0 < 4
      requires addr == SECTION * s + addr % SECTION && addr % SECTION == 2 * m0 + addr % SECTION % 2
      requires (en0, newdata[..]) == Filled(current, want, s, z)
      requires addr % SECTION % 2 == 1 ==> data != []
      modifies newdata
      ensures i == 2 * m && m <= 4 && idx <= |data| && addr + idx == SECTION * s + i
      ensures (en, newdata[..]) == Filled(current, want, s, m)
    {
      i, idx, en, m := addr % SECTION, 0, en0, m0;
      if i % 2 == 1 {
        en, m := HalfWord(current, addr, data, want, s, m0, z, i, en0, newdata);
        i, idx := i + 1, idx + 1;
      } else {
        EvenStart(current, addr, data, s, m, z);
      }
    }

    static method HalfWord(current: seq<Byte>, addr: nat, data: seq<Byte>, ghost want: seq<Byte>,
                           ghost s: nat, ghost m: nat, ghost z: nat, i: nat, en0: bv8, newdata: array<Byte>)
      returns (en: bv8, ghost m1: nat)
      requires data != [] && addr + |data| <= |current| && want == Patched(current, addr, data)
      requires m < 4 && i == 2 * m + 1 && addr == SECTION * s + i
      requires newdata.Length == SECTION && z == 0 && (en0, newdata[..]) == Filled(current, want, s, z)
      modifies newdata
      ensures m1 == m + 1 && (en, newdata[..]) == Filled(current, want, s, m1)
    {
      en, m1 := en0, m + 1;
      OddStart(current, addr, data, s, m, z);
      if data[0] != current[addr] {
        en := Enable(en, i / 2);
        newdata[i - 1], newdata[i] := current[addr - 1], data[0];
      }
    }

    /** The inner loop of rtw_efuse_map_write: one section from position `start` on. */
    static method FillSection(current: seq<Byte>, addr: nat, data: seq<Byte>, ghost want: seq<Byte>, ghost s: nat,
                              start: nat, ghost m0: nat, idx0: nat, en0: bv8, newdata: array<Byte>)
      returns (idx: nat, en: bv8, ghost n: nat)
      requires |current| % 2 == 0 && addr + |data| <= |current| && newdata.Length == SECTION
      requires want == Patched(current, addr, data)
      requires start == 2 * m0 && m0 <= 4 && idx0 <= |data|
      requires idx0 < |data| ==> addr + idx0 == SECTION * s + start
      requires idx0 == |data| ==> addr + |data| <= SECTION * s + start
      requires (en0, newdata[..]) == Filled(current, want, s, m0)
      modifies newdata
      ensures idx == |data| || (idx < |data| && addr + idx == SECTION * (s + 1))
      ensures idx == |data| ==> addr + |data| <= SECTION * (s + 1)
      ensures n == 4 && (en, newdata[..]) == Filled(current, want, s, n)
    {
      var cnts := |data|;
      idx, en := idx0, en0;
      var i := start;
      ghost var m := m0;   // words settled
      while i < SECTION && idx != cnts
        invariant start <= i <= SECTION && i == 2 * m && idx <= cnts
        invariant idx < cnts ==> addr + idx == SECTION * s + i
        invariant idx == cnts ==> addr + cnts <= SECTION * s + i
        invariant (en, newdata[..]) == Filled(current, want, s, m)
      {
        FillWord(current, addr, data, idx, s, m);
        if cnts - idx == 1 {
          if data[idx] != current[addr + idx] {
            en := Enable(en, i / 2);
            newdata[i], newdata[i + 1] := data[idx], current[addr + idx + 1];
          }
          idx := idx + 1;
        } else {
          if data[idx] != current[addr + idx] || data[idx + 1] != current[addr + idx + 1] {
            en := Enable(en, i / 2);
            newdata[i], newdata[i + 1] := data[idx], data[idx + 1];
          }
          idx := idx + 2;
        }
        m := m + 1;
        i := i + 2;
      }
      n := newdata.Length / 2;
      if m < n { NothingLater(current, addr, data, s, m, n); }
    }

    /** The write of one settled section, left out when no word of it is enabled. */
    method FlushSection(ghost was: seq<Byte>, ghost addr: nat, ghost data: seq<Byte>, ghost log: seq<Write>,
                        ghost n: nat, offset: nat, ghost next: nat, en: bv8, newdata: array<Byte>) returns (ok: bool)
      requires Valid() && newdata.Length == SECTION && |was| % 2 == 0 && addr + |data| <= |was| && n == 4
      requires addr / SECTION <= offset && Reached(was, addr, data, works, log, offset, cells, writes)
      requires next == offset + 1 && (en, newdata[..]) == Filled(was, Patched(was, addr, data), offset, n)
      modifies this
      ensures Valid()
      ensures !ok ==> Wrote(was, addr, data, works, log, false, cells, writes)
      ensures ok ==> Reached(was, addr, data, works, log, next, cells, writes)
    {
      ok := true;
      SectionOutcome(was, addr, data, works, log, offset, n, next, cells, writes);
      if en != NO_WORDS { ok := PgPacketWrite(offset, en, newdata); }
    }

    /** The outer loop of rtw_efuse_map_write. */
    method WriteSections(current: seq<Byte>, addr: nat, data: seq<Byte>, ghost log: seq<Write>,
                         offset0: nat, i0: nat, ghost m0: nat, idx0: nat, en0: bv8, newdata: array<Byte>)
      returns (ok: bool)
      requires Valid() && newdata.Length == SECTION && |current| % 2 == 0 && addr + |data| <= |current|
      requires addr / SECTION == offset0 && Reached(current, addr, data, works, log, offset0, cells, writes)
      requires i0 == 2 * m0 && m0 <= 4 && idx0 <= |data| && addr + idx0 == SECTION * offset0 + i0
      requires (en0, newdata[..]) == Filled(current, Patched(current, addr, data), offset0, m0)
      modifies this, newdata
      ensures Valid() && Wrote(current, addr, data, works, log, ok, cells, writes)
    {
      var cnts := |data|;
      var offset: nat, i: nat, idx: nat, en: bv8 := offset0, i0, idx0, en0;
      ghost var want, m := Patched(current, addr, data), m0;
      while true
        invariant Valid() && offset >= offset0 && Reached(current, addr, data, works, log, offset, cells, writes)
        invariant i == 2 * m && m <= 4 && idx <= cnts
        invariant addr + idx == SECTION * offset + i
        invariant (en, newdata[..]) == Filled(current, want, offset, m)
        decreases addr + cnts - SECTION * offset
      {
        ghost var n, next: nat := 4, offset + 1;
        idx, en, n := FillSection(current, addr, data, want, offset, i, m, idx, en, newdata);
        ok := FlushSection(current, addr, data, log, n, offset, next, en, newdata);
        if !ok { break; }
        if idx == cnts {
          Finished(current, addr, data, works, log, next, cells, writes);
          break;
        }
        offset := offset + 1;
        i, en, m := 0, NO_WORDS, 0;
        forall j | 0 <= j < newdata.Length { newdata[j] := 255; }
        assert newdata[..] == Blank();
      }
    }

    /** rtw_efuse_map_write. A map write from an odd address needs at least one byte. */
    method MapWrite(addr: nat, data: seq<Byte>) returns (ok: bool)
      requires Valid() && (addr % SECTION % 2 == 1 ==> data != [])
      modifies this
      ensures Valid()
      ensures addr + |data| > mapLen ==> !ok && cells == old(cells) && writes == old(writes)
      ensures addr + |data| <= mapLen ==>
        Wrote(old(cells), addr, data, works, old(writes), ok, cells, writes)
    {
      if addr + |data| > mapLen { return false; }
      var buffer := new Byte[mapLen](_ => 0);
      ok := MapRead(0, mapLen, buffer);
      var current := buffer[..];
      assert current == cells;
      var newdata := new Byte[SECTION](_ => 255);
      assert newdata[..] == Blank();
      ghost var s, m0 := Position(addr);
      ghost var m;
      var i, idx, en;
      i, idx, en, m := StartSection(current, addr, data, Patched(current, addr, data), s, m0, 0, NO_WORDS, newdata);
      Edges(current, addr, data, SECTION * (addr / SECTION));
      ok := WriteSections(current, addr, data, writes, addr / SECTION, i, m, idx, en, newdata);
    }
  }
}
