/** The interpreter of power sequences (hal/HalPwrSeqCmd.c): a script of register commands, each
    meant for some chip cuts, fabs and interfaces. */
module PowerSeq {
  const MAX_POLL: nat := 5000      // maxPollingCnt

  datatype Op = READ | WRITE | POLLING | DELAY | END | UNKNOWN

  datatype Cmd = Cmd(offset: nat, cut: bv8, fab: bv8, intf: bv8, op: Op, msk: bv8, value: bv8)

  datatype Chip = Chip(cut: bv8, fab: bv8, intf: bv8)

  /** What happens on the bus: reads, marked when they poll, writes, and delays. */
  datatype Io = R(offset: nat, v: bv8, poll: bool) | W(offset: nat, v: bv8) | D(us: nat)

  /** A device answers a read by what has happened to it so far. */
  type Device = (seq<Io>, nat) -> bv8

  predicate Matches(c: Cmd, chip: Chip) {
    c.fab & chip.fab != 0 && c.cut & chip.cut != 0 && c.intf & chip.intf != 0
  }

  function Merged(was: bv8, c: Cmd): bv8 {
    (was & !c.msk) | (c.value & c.msk)
  }

  function DelayOf(c: Cmd): nat {
    if c.value == 0 then c.offset else c.offset * 1000
  }

  // ---- the run as a function --------------------------------------------------------------

  datatype Result = Ended(ok: bool, log: seq<Io>, polls: nat) | Running(log: seq<Io>, polls: nat)

  predicate Hit(v: bv8, c: Cmd) {
    v & c.msk == c.value & c.msk
  }

  function Polled(log: seq<Io>, offset: nat, v: bv8, hit: bool): seq<Io> {
    if hit then log + [R(offset, v, true)] else log + [R(offset, v, true)] + [D(10)]
  }

  /** One poll: the count is tested after the read, so a bit found too late does not help. */
  function Poll(dev: Device, c: Cmd, log: seq<Io>, polls: nat): Result
    decreases MAX_POLL + 2 - polls
  {
    var v := dev(log, c.offset);
    var hit := Hit(v, c);
    var log1 := Polled(log, c.offset, v, hit);
    if polls > MAX_POLL then Ended(false, log1, polls + 1)
    else if hit then Running(log1, polls + 1)
    else Poll(dev, c, log1, polls + 1)
  }

  /** One command for this chip. */
  function Execute(dev: Device, c: Cmd, log: seq<Io>, polls: nat): Result {
    match c.op
    case WRITE =>
      var v := dev(log, c.offset);
      Running(log + [R(c.offset, v, false)] + [W(c.offset, Merged(v, c))], polls)
    case POLLING => Poll(dev, c, log, polls)
    case DELAY => Running(log + [D(DelayOf(c))], polls)
    case END => Ended(true, log, polls)
    case READ => Running(log, polls)
    case UNKNOWN => Running(log, polls)
  }

  function Step(dev: Device, chip: Chip, c: Cmd, log: seq<Io>, polls: nat): Result {
    if Matches(c, chip) then Execute(dev, c, log, polls) else Running(log, polls)
  }

  /** Running: the script is used up without an END. */
  function Run(dev: Device, chip: Chip, cmds: seq<Cmd>, log: seq<Io>, polls: nat): Result {
    if cmds == [] then Running(log, polls)
    else
      var r := Step(dev, chip, cmds[0], log, polls);
      if r.Ended? then r else Run(dev, chip, cmds[1..], r.log, r.polls)
  }

  /** What one command does, read off the bus and the masks: a write leaves its value inside the
      mask and what was read outside; a delay is in microseconds for the value 0 and in
      milliseconds otherwise; END ends; a command not meant for the chip does nothing. */
  lemma StepMeans(dev: Device, chip: Chip, c: Cmd, log: seq<Io>, polls: nat)
    ensures var r := Step(dev, chip, c, log, polls);
      if c.fab & chip.fab == 0 || c.cut & chip.cut == 0 || c.intf & chip.intf == 0 then r == Running(log, polls)
      else match c.op
        case WRITE =>
          && r.Running? && r.polls == polls && |r.log| == |log| + 2 && r.log[..|log|] == log
          && r.log[|log|] == R(c.offset, dev(log, c.offset), false)
          && r.log[|log| + 1].W? && r.log[|log| + 1].offset == c.offset
          && r.log[|log| + 1].v & c.msk == c.value & c.msk
          && r.log[|log| + 1].v & !c.msk == dev(log, c.offset) & !c.msk
        case DELAY => r == Running(log + [D(c.offset * (if c.value == 0 then 1 else 1000))], polls)
        case END => r == Ended(true, log, polls)
        case POLLING => r == Poll(dev, c, log, polls)
        case READ => r == Running(log, polls)
        case UNKNOWN => r == Running(log, polls)
  {
    MaskedBits(dev(log, c.offset), c.msk, c.value);
  }

  lemma MaskedBits(was: bv8, msk: bv8, value: bv8)
    ensures ((was & !msk) | (value & msk)) & msk == value & msk
    ensures ((was & !msk) | (value & msk)) & !msk == was & !msk
  {
  }

  /** From position `at` on: reads of the register, each that misses with a delay behind it, and
      nothing behind the one whose masked bits have their value. */
  predicate Waits(c: Cmd, log: seq<Io>, at: nat)
    decreases |log| - at
  {
    && at < |log| && log[at].R? && log[at].poll && log[at].offset == c.offset
    && if log[at].v & c.msk == c.value & c.msk then at + 1 == |log|
       else at + 1 < |log| && log[at + 1] == D(10) && (at + 2 == |log| || Waits(c, log, at + 2))
  }

  /** The log ends with a read that hits. */
  predicate EndsMet(c: Cmd, log: seq<Io>) {
    log != [] && MetBy(c, log[|log| - 1])
  }

  predicate MetBy(c: Cmd, io: Io) {
    io.R? && io.poll && io.offset == c.offset && io.v & c.msk == c.value & c.msk
  }

  /** A polling command waits for its value, and goes on to the next command only after a hit. */
  lemma {:induction false} PollWaits(dev: Device, c: Cmd, log: seq<Io>, polls: nat)
    ensures var r := Poll(dev, c, log, polls);
      log <= r.log && Waits(c, r.log, |log|) && (r.Running? ==> EndsMet(c, r.log))
    decreases MAX_POLL + 2 - polls
  {
    var v := dev(log, c.offset);
    var log1 := Polled(log, c.offset, v, Hit(v, c));
    if polls > MAX_POLL || Hit(v, c) {
      WaitsOnce(c, log, v, log1);
    } else {
      PollWaits(dev, c, log1, polls + 1);
      WaitsLonger(c, log, v, log1, Poll(dev, c, log1, polls + 1).log);
    }
  }

  lemma WaitsOnce(c: Cmd, log: seq<Io>, v: bv8, end: seq<Io>)
    requires end == Polled(log, c.offset, v, Hit(v, c))
    ensures log <= end && Waits(c, end, |log|) && (Hit(v, c) ==> EndsMet(c, end))
  {
  }

  lemma WaitsLonger(c: Cmd, log: seq<Io>, v: bv8, log1: seq<Io>, end: seq<Io>)
    requires log1 == log + [R(c.offset, v, true)] + [D(10)] && log1 <= end && !Hit(v, c) && Waits(c, end, |log1|)
    ensures log <= end && Waits(c, end, |log|)
  {
    assert end[|log|] == log1[|log|] && end[|log| + 1] == log1[|log| + 1];
  }

  // ---- only the matching commands count ---------------------------------------------------

  function Meant(cmds: seq<Cmd>, chip: Chip): seq<Cmd> {
    if cmds == [] then []
    else if Matches(cmds[0], chip) then [cmds[0]] + Meant(cmds[1..], chip)
    else Meant(cmds[1..], chip)
  }

  /** The run is the run of the commands meant for the chip. */
  lemma {:induction false} RunOfMeant(dev: Device, chip: Chip, cmds: seq<Cmd>, log: seq<Io>, polls: nat)
    ensures Run(dev, chip, cmds, log, polls) == Run(dev, chip, Meant(cmds, chip), log, polls)
  {
    if cmds != [] {
      var r := Step(dev, chip, cmds[0], log, polls);
      if !r.Ended? { RunOfMeant(dev, chip, cmds[1..], r.log, r.polls); }
      if Matches(cmds[0], chip) {
        assert ([cmds[0]] + Meant(cmds[1..], chip))[1..] == Meant(cmds[1..], chip);
      }
    }
  }

  predicate HasEnd(cmds: seq<Cmd>, chip: Chip) {
    exists i :: 0 <= i < |cmds| && cmds[i].op == END && Matches(cmds[i], chip)
  }

  /** A script with an END for the chip does end. */
  lemma {:induction false} RunEnds(dev: Device, chip: Chip, cmds: seq<Cmd>, log: seq<Io>, polls: nat)
    requires HasEnd(cmds, chip)
    ensures Run(dev, chip, cmds, log, polls).Ended?
  {
    var i :| 0 <= i < |cmds| && cmds[i].op == END && Matches(cmds[i], chip);
    var r := Step(dev, chip, cmds[0], log, polls);
    if !r.Ended? {
      assert cmds[1..][i - 1] == cmds[i];
      RunEnds(dev, chip, cmds[1..], r.log, r.polls);
    }
  }

  // ---- the shared polling budget ----------------------------------------------------------

  function Polls(log: seq<Io>): nat {
    if log == [] then 0
    else Polls(log[..|log| - 1]) + if log[|log| - 1].R? && log[|log| - 1].poll then 1 else 0
  }

  lemma PollsOne(log: seq<Io>, io: Io)
    ensures Polls(log + [io]) == Polls(log) + if io.R? && io.poll then 1 else 0
  {
    assert (log + [io])[..|log|] == log;
  }

  /** The log grew from `was`, by as many polling reads as were counted; a refusal comes with the
      budget used up, and anything else leaves some of it. */
  predicate Budgeted(was: seq<Io>, before: nat, r: Result) {
    && was <= r.log && r.polls >= before && Polls(r.log) == Polls(was) + (r.polls - before)
    && (before <= MAX_POLL + 1 ==> if r.Ended? && !r.ok then r.polls == MAX_POLL + 2 else r.polls <= MAX_POLL + 1)
  }

  lemma {:induction false} PollBudgeted(dev: Device, c: Cmd, log: seq<Io>, polls: nat)
    ensures Budgeted(log, polls, Poll(dev, c, log, polls))
    ensures Poll(dev, c, log, polls).Ended? ==> !Poll(dev, c, log, polls).ok
    decreases MAX_POLL + 2 - polls
  {
    var v := dev(log, c.offset);
    var hit := Hit(v, c);
    var log1 := Polled(log, c.offset, v, hit);
    PollsOne(log, R(c.offset, v, true));
    PollsOne(log + [R(c.offset, v, true)], D(10));
    if polls <= MAX_POLL && !hit { PollBudgeted(dev, c, log1, polls + 1); }
  }

  lemma StepBudgeted(dev: Device, chip: Chip, c: Cmd, log: seq<Io>, polls: nat)
    ensures Budgeted(log, polls, Step(dev, chip, c, log, polls))
  {
    match c.op
    case WRITE =>
      var v := dev(log, c.offset);
      PollsOne(log, R(c.offset, v, false));
      PollsOne(log + [R(c.offset, v, false)], W(c.offset, Merged(v, c)));
    case POLLING => PollBudgeted(dev, c, log, polls);
    case DELAY => PollsOne(log, D(DelayOf(c)));
    case _ =>
  }

  /** Over the whole script no more than 5002 polling reads are made; 5002 of them mean failure. */
  lemma {:induction false} RunBudgeted(dev: Device, chip: Chip, cmds: seq<Cmd>, log: seq<Io>, polls: nat)
    requires polls <= MAX_POLL + 1
    ensures Budgeted(log, polls, Run(dev, chip, cmds, log, polls))
  {
    if cmds != [] {
      var r := Step(dev, chip, cmds[0], log, polls);
      StepBudgeted(dev, chip, cmds[0], log, polls);
      if !r.Ended? { RunBudgeted(dev, chip, cmds[1..], r.log, r.polls); }
    }
  }

  // ---- what the registers hold ------------------------------------------------------------

  /** The last value written to a register, or what it held before. */
  function Held(log: seq<Io>, offset: nat, init: bv8): bv8 {
    if log == [] then init
    else
      var io := log[|log| - 1];
      if io.W? && io.offset == offset then io.v else Held(log[..|log| - 1], offset, init)
  }

  lemma HeldOne(log: seq<Io>, io: Io, offset: nat, init: bv8)
    ensures Held(log + [io], offset, init) == if io.W? && io.offset == offset then io.v else Held(log, offset, init)
  {
    assert (log + [io])[..|log|] == log;
  }

  /** The register at this offset behaves as memory. */
  ghost predicate Memory(dev: Device, offset: nat, init: bv8) {
    forall log :: dev(log, offset) == Held(log, offset, init)
  }

  /** No command for the chip writes these bits. */
  predicate Spares(cmds: seq<Cmd>, chip: Chip, offset: nat, bits: bv8) {
    forall i :: 0 <= i < |cmds| && cmds[i].op == WRITE && Matches(cmds[i], chip) && cmds[i].offset == offset ==>
      Apart(cmds[i].msk, bits)
  }

  predicate SameBits(a: bv8, b: bv8, bits: bv8) {
    a & bits == b & bits
  }

  predicate Apart(msk: bv8, bits: bv8) {
    msk & bits == 0
  }

  lemma MergedKeeps(was: bv8, c: Cmd, bits: bv8)
    requires Apart(c.msk, bits)
    ensures SameBits(Merged(was, c), was, bits)
  {
    MergedBits(was, c.msk, c.value, bits);
  }

  lemma MergedBits(was: bv8, msk: bv8, value: bv8, bits: bv8)
    requires msk & bits == 0
    ensures ((was & !msk) | (value & msk)) & bits == was & bits
  {
  }

  lemma SameThrough(a: bv8, b: bv8, c: bv8, bits: bv8)
    requires SameBits(a, b, bits) && SameBits(b, c, bits)
    ensures SameBits(a, c, bits)
  {
  }

  lemma {:induction false} PollKeeps(dev: Device, c: Cmd, log: seq<Io>, polls: nat, offset: nat, init: bv8)
    ensures Held(Poll(dev, c, log, polls).log, offset, init) == Held(log, offset, init)
    decreases MAX_POLL + 2 - polls
  {
    var v := dev(log, c.offset);
    var hit := Hit(v, c);
    var log1 := Polled(log, c.offset, v, hit);
    HeldOne(log, R(c.offset, v, true), offset, init);
    HeldOne(log + [R(c.offset, v, true)], D(10), offset, init);
    if polls <= MAX_POLL && !hit { PollKeeps(dev, c, log1, polls + 1, offset, init); }
  }

  /** What one command leaves in a register. */
  lemma StepHolds(dev: Device, chip: Chip, c: Cmd, log: seq<Io>, polls: nat, offset: nat, init: bv8)
    requires Memory(dev, offset, init)
    ensures Held(Step(dev, chip, c, log, polls).log, offset, init)
         == if Matches(c, chip) && c.op == WRITE && c.offset == offset then Merged(Held(log, offset, init), c)
            else Held(log, offset, init)
  {
    if Matches(c, chip) && c.op == WRITE {
      var v := dev(log, c.offset);
      WriteHolds(log, c.offset, v, Merged(v, c), offset, init);
    } else {
      OthersHold(dev, chip, c, log, polls, offset, init);
    }
  }

  lemma OthersHold(dev: Device, chip: Chip, c: Cmd, log: seq<Io>, polls: nat, offset: nat, init: bv8)
    requires !(Matches(c, chip) && c.op == WRITE)
    ensures Held(Step(dev, chip, c, log, polls).log, offset, init) == Held(log, offset, init)
  {
    if c.op == POLLING {
      PollKeeps(dev, c, log, polls, offset, init);
    } else if c.op == DELAY {
      HeldOne(log, D(DelayOf(c)), offset, init);
    }
  }

  lemma WriteHolds(log: seq<Io>, at: nat, v: bv8, v': bv8, offset: nat, init: bv8)
    ensures Held(log + [R(at, v, false)] + [W(at, v')], offset, init)
         == if at == offset then v' else Held(log, offset, init)
  {
    HeldOne(log, R(at, v, false), offset, init);
    HeldOne(log + [R(at, v, false)], W(at, v'), offset, init);
  }

  /** Bits outside the masks of all matching writes keep their value, to the end of the run. */
  lemma {:induction false} OtherBitsKept(dev: Device, chip: Chip, cmds: seq<Cmd>, log: seq<Io>, polls: nat,
                                         offset: nat, init: bv8, bits: bv8)
    requires Memory(dev, offset, init) && Spares(cmds, chip, offset, bits)
    ensures SameBits(Held(Run(dev, chip, cmds, log, polls).log, offset, init), Held(log, offset, init), bits)
  {
    if cmds != [] {
      var r := Step(dev, chip, cmds[0], log, polls);
      StepSpares(dev, chip, cmds[0], log, polls, offset, init, bits);
      if !r.Ended? {
        SparesRest(cmds, chip, offset, bits);
        OtherBitsKept(dev, chip, cmds[1..], r.log, r.polls, offset, init, bits);
        var end := Run(dev, chip, cmds[1..], r.log, r.polls);
        SameThrough(Held(end.log, offset, init), Held(r.log, offset, init), Held(log, offset, init), bits);
      }
    }
  }

  /** The run gets as far as position i: no END for the chip in front of it. */
  predicate NoEndBefore(cmds: seq<Cmd>, chip: Chip, i: nat)
    requires i < |cmds|
  {
    forall j :: 0 <= j < i ==> !(cmds[j].op == END && Matches(cmds[j], chip))
  }

  predicate Within(bits: bv8, msk: bv8) {
    bits & !msk == 0
  }

  /** The bits of a matching write that no later one touches have its value at the end of every
      run that does not fail. */
  lemma {:induction false} LastWriteStands(dev: Device, chip: Chip, cmds: seq<Cmd>, log: seq<Io>, polls: nat,
                                           offset: nat, init: bv8, bits: bv8, i: nat)
    requires Memory(dev, offset, init) && i < |cmds| && NoEndBefore(cmds, chip, i)
    requires cmds[i].op == WRITE && Matches(cmds[i], chip) && cmds[i].offset == offset && Within(bits, cmds[i].msk)
    requires Spares(cmds[i + 1..], chip, offset, bits)
    requires var r := Run(dev, chip, cmds, log, polls); r.Ended? ==> r.ok
    ensures SameBits(Held(Run(dev, chip, cmds, log, polls).log, offset, init), cmds[i].value, bits)
  {
    var r := Step(dev, chip, cmds[0], log, polls);
    StepGoesOn(dev, chip, cmds[0], log, polls);
    if i == 0 {
      FirstWriteStands(dev, chip, cmds, log, polls, offset, init, bits, cmds[1..], r);
    } else {
      TailFacts(cmds, chip, i);
      LastWriteStands(dev, chip, cmds[1..], r.log, r.polls, offset, init, bits, i - 1);
    }
  }

  lemma FirstWriteStands(dev: Device, chip: Chip, cmds: seq<Cmd>, log: seq<Io>, polls: nat,
                         offset: nat, init: bv8, bits: bv8, rest: seq<Cmd>, r: Result)
    requires Memory(dev, offset, init) && cmds != [] && rest == cmds[1..] && Spares(rest, chip, offset, bits)
    requires cmds[0].op == WRITE && Matches(cmds[0], chip) && cmds[0].offset == offset && Within(bits, cmds[0].msk)
    requires r == Step(dev, chip, cmds[0], log, polls)
    ensures SameBits(Held(Run(dev, chip, cmds, log, polls).log, offset, init), cmds[0].value, bits)
  {
    var end := Run(dev, chip, rest, r.log, r.polls);
    StepHolds(dev, chip, cmds[0], log, polls, offset, init);
    WrittenBits(Held(log, offset, init), cmds[0], bits);
    OtherBitsKept(dev, chip, rest, r.log, r.polls, offset, init, bits);
    SameThrough(Held(end.log, offset, init), Held(r.log, offset, init), cmds[0].value, bits);
  }

  lemma StepGoesOn(dev: Device, chip: Chip, c: Cmd, log: seq<Io>, polls: nat)
    requires !(c.op == END && Matches(c, chip))
    ensures var r := Step(dev, chip, c, log, polls); r.Ended? ==> !r.ok
  {
    if c.op == POLLING { PollBudgeted(dev, c, log, polls); }
  }

  lemma WrittenBits(was: bv8, c: Cmd, bits: bv8)
    requires Within(bits, c.msk)
    ensures SameBits(Merged(was, c), c.value, bits)
  {
    MaskedWithin(was, c.msk, c.value, bits);
  }

  lemma MaskedWithin(was: bv8, msk: bv8, value: bv8, bits: bv8)
    requires bits & !msk == 0
    ensures ((was & !msk) | (value & msk)) & bits == value & bits
  {
  }

  lemma TailFacts(cmds: seq<Cmd>, chip: Chip, i: nat)
    requires 0 < i < |cmds| && NoEndBefore(cmds, chip, i)
    ensures NoEndBefore(cmds[1..], chip, i - 1) && cmds[1..][i - 1] == cmds[i] && cmds[1..][i..] == cmds[i + 1..]
  {
    assert forall j :: 0 <= j < i - 1 ==> cmds[1..][j] == cmds[j + 1];
  }

  ghost predicate Seen(c: Cmd, log: seq<Io>) {
    exists k :: 0 <= k < |log| && MetBy(c, log[k])
  }

  /** A run that does not fail has seen what each of its polling commands waits for. */
  lemma {:induction false} PollingsMet(dev: Device, chip: Chip, cmds: seq<Cmd>, log: seq<Io>, polls: nat, i: nat)
    requires i < |cmds| && NoEndBefore(cmds, chip, i) && cmds[i].op == POLLING && Matches(cmds[i], chip)
    requires polls <= MAX_POLL + 1
    requires var r := Run(dev, chip, cmds, log, polls); r.Ended? ==> r.ok
    ensures Seen(cmds[i], Run(dev, chip, cmds, log, polls).log)
  {
    var r := Step(dev, chip, cmds[0], log, polls);
    StepBudgeted(dev, chip, cmds[0], log, polls);
    StepGoesOn(dev, chip, cmds[0], log, polls);
    RunBudgeted(dev, chip, cmds[1..], r.log, r.polls);
    if i == 0 {
      PollWaits(dev, cmds[0], log, polls);
      var k := |r.log| - 1;
      assert MetBy(cmds[0], Run(dev, chip, cmds[1..], r.log, r.polls).log[k]);
    } else {
      TailFacts(cmds, chip, i);
      PollingsMet(dev, chip, cmds[1..], r.log, r.polls, i - 1);
    }
  }

  lemma StepSpares(dev: Device, chip: Chip, c: Cmd, log: seq<Io>, polls: nat, offset: nat, init: bv8, bits: bv8)
    requires Memory(dev, offset, init)
    requires c.op == WRITE && Matches(c, chip) && c.offset == offset ==> Apart(c.msk, bits)
    ensures SameBits(Held(Step(dev, chip, c, log, polls).log, offset, init), Held(log, offset, init), bits)
  {
    StepHolds(dev, chip, c, log, polls, offset, init);
    if Matches(c, chip) && c.op == WRITE && c.offset == offset { MergedKeeps(Held(log, offset, init), c, bits); }
  }

  lemma SparesRest(cmds: seq<Cmd>, chip: Chip, offset: nat, bits: bv8)
    requires cmds != [] && Spares(cmds, chip, offset, bits)
    ensures Spares(cmds[1..], chip, offset, bits)
  {
    assert forall i :: 0 <= i < |cmds[1..]| ==> cmds[1..][i] == cmds[i + 1];
  }

  // ---- the code ---------------------------------------------------------------------------

  class Hal {
    const dev: Device
    var log: seq<Io>

    constructor (dev: Device)
      ensures this.dev == dev && log == []
    {
      this.dev := dev;
      log := [];
    }

    method Read8(offset: nat, poll: bool) returns (v: bv8)
      modifies this
      ensures v == dev(old(log), offset) && log == old(log) + [R(offset, v, poll)]
    {
      v := dev(log, offset);
      log := log + [R(offset, v, poll)];
    }

    method Write8(offset: nat, v: bv8)
      modifies this
      ensures log == old(log) + [W(offset, v)]
    {
      log := log + [W(offset, v)];
    }

    method Udelay(us: nat)
      modifies this
      ensures log == old(log) + [D(us)]
    {
      log := log + [D(us)];
    }

    /** The PWR_CMD_POLLING case. */
    method PollCmd(c: Cmd, polls0: nat) returns (ok: bool, polls: nat)
      modifies this
      ensures Poll(dev, c, old(log), polls0) == if ok then Running(log, polls) else Ended(false, log, polls)
    {
      polls := polls0;
      ok := false;
      ghost var goal := Poll(dev, c, log, polls);
      while true
        invariant Poll(dev, c, log, polls) == goal
        decreases MAX_POLL + 2 - polls
      {
        var value := Read8(c.offset, true);
        var hit := Hit(value, c);
        if !hit { Udelay(10); }
        polls := polls + 1;
        if polls - 1 > MAX_POLL { return false, polls; }
        if hit { return true, polls; }
      }
    }

    /** HalPwrSeqCmdParsing. The array of commands has an END for the chip. */
    method Parse(chip: Chip, cmds: seq<Cmd>) returns (ok: bool, ghost polls: nat)
      requires HasEnd(cmds, chip)
      modifies this
      ensures Ended(ok, log, polls) == Run(dev, chip, cmds, old(log), 0)
    {
      var i, count: nat := 0, 0;
      ghost var goal, rest := Run(dev, chip, cmds, log, 0), cmds;
      while true
        invariant 0 <= i <= |cmds| && rest == cmds[i..] && HasEnd(rest, chip)
        invariant Run(dev, chip, rest, log, count) == goal
        decreases |cmds| - i
      {
        var c := cmds[i];
        assert c == rest[0];
        if Matches(c, chip) {
          match c.op {
            case READ =>
            case WRITE =>
              var value := Read8(c.offset, false);
              Write8(c.offset, Merged(value, c));
            case POLLING =>
              ok, count := PollCmd(c, count);
              if !ok { return false, count; }
            case DELAY =>
              if c.value == 0 { Udelay(c.offset); } else { Udelay(c.offset * 1000); }
            case END => return true, count;
            case UNKNOWN =>
          }
        }
        i := i + 1;
        rest := rest[1..];
      }
    }
  }
}
