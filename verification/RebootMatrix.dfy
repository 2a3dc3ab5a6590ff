/** The producer of a reboot matrix: nine exclusive output files reserved before any device I/O,
    five software and three cold cycles, and every reservation closed on every path. */
module RebootMatrix {
  import opened Results
  import HashChain

  const CYCLES := HashChain.SOFTWARE_CYCLES + HashChain.COLD_CYCLES
  const FINAL := 0 // the handle of the matrix; that of cycle `k` is `k + 1`

  datatype Stage =
    | AllOutputsReserved | ResolvingTarget | ValidatingSeed | ValidatingClosingFlash | ResolvingPostReinstall
    | OpeningSerial | CapturingIdentity | CapturingState | RunningCycles | AssemblingMatrix
    | ValidatingMatrix | FinalizingMatrix | Complete

  /** The stages before the first cycle. */
  type Preparation = s: Stage | s in {
    ResolvingTarget, ValidatingSeed, ValidatingClosingFlash, ResolvingPostReinstall, OpeningSerial, CapturingIdentity,
    CapturingState} witness ResolvingTarget

  datatype Row = Row(cycle: nat, sha256: string)

  datatype Reason = EarlierCycleDidNotClose | ProducerFailed

  /** What can be written to a reserved file. */
  datatype Receipt =
    | Cycle(cycle: nat, seed: string, flash: string, previous: string, ok: bool, failed: bool)
    | Unused(cycle: nat, reason: Reason)
    | Report(ok: bool, rows: seq<Row>, tail: string, unique: bool, rejected: bool)
    | FailureReport(stage: Stage, rows: seq<Row>, current: Option<nat>, acted: bool, finalizeErrors: nat)

  /** A reserved file: what was sent to it, and what it holds. Every attempt to write closes it. */
  datatype File = File(closed: bool, attempts: seq<Receipt>, content: Option<Receipt>)

  datatype Event = Reserved(handle: nat) | Device(stage: Stage) | CycleRun(cycle: nat) | Written(handle: nat)

  /** A cycle returns its receipt or raises half way. `acted`: a reboot may have happened. */
  datatype CycleOutcome = Finished(ok: bool, acted: bool) | Broke(acted: bool)

  datatype Verdict = Accepted | Rejected | Raises

  /** Everything the producer cannot decide itself. Any step outside the exception handler may
      raise; inside it, the two calls of the caller's clock and every write may. */
  datatype World = World(
    identityOk: bool, reserveOk: nat -> bool, directoryOk: bool, failsAt: Option<Preparation>, seed: string, flash: string,
    starts: nat -> bool, cycle: nat -> CycleOutcome, writeOk: nat -> bool, hashOk: nat -> bool, digest: Receipt -> string,
    assembles: bool, verdict: Receipt -> Verdict, nowInReceipt: bool, nowInFailure: bool)

  datatype Outcome = Returned(report: Receipt) | Raised | RaisedUnfinalized | RaisedByClock | NotStarted | NotReserved

  // ----- what each file is sent

  /** The digest the receipt of cycle `k` names as its predecessor's. */
  function Previous(w: World, k: nat): string
    decreases k, 0
  {
    if k == 0 then w.flash else w.digest(Finishes(w, k - 1, true))
  }

  function Finishes(w: World, k: nat, ok: bool): Receipt
    decreases k, 1
  {
    Cycle(k, w.seed, w.flash, Previous(w, k), ok, false)
  }

  /** Cycle `k` closed and the next one may run. */
  predicate Proceeds(w: World, k: nat) {
    w.starts(k) && w.cycle(k).Finished? && w.cycle(k).ok && w.writeOk(k + 1) && w.hashOk(k)
  }

  /** The first cycle from `k` on after which no further one runs. */
  function Halt(w: World, k: nat): nat
    requires k <= CYCLES
    decreases CYCLES - k
  {
    if k < CYCLES && Proceeds(w, k) then Halt(w, k + 1) else k
  }

  /** Cycle `k` ends in an exception. */
  predicate Breaks(w: World, k: nat) {
    !w.starts(k) || w.cycle(k).Broke? || !w.writeOk(k + 1) || !w.hashOk(k)
  }

  /** The cycle at the halt gets a receipt of its own: that it returned, or the handler's. */
  predicate HasOwnReceipt(w: World, k: nat) {
    w.starts(k) && (w.cycle(k).Finished? || w.nowInReceipt)
  }

  /** How many cycles were run, to their end or not. */
  function RunCount(w: World): nat {
    var h := Halt(w, 0);
    if w.failsAt.Some? then 0 else if h < CYCLES && w.starts(h) then h + 1 else h
  }

  function SentByCycle(w: World, k: nat): Receipt {
    match w.cycle(k)
    case Finished(ok, _) => Finishes(w, k, ok)
    case Broke(_) => Cycle(k, w.seed, w.flash, Previous(w, k), false, true)
  }

  function RowOf(w: World, k: nat): Row {
    Row(k, w.digest(SentByCycle(w, k)))
  }

  /** The rows of the first `n` cycles. */
  function Rows(w: World, n: nat): seq<Row> {
    if n == 0 then [] else Rows(w, n - 1) + [RowOf(w, n - 1)]
  }

  function Tail(w: World, n: nat): string {
    if n == 0 then w.flash else RowOf(w, n - 1).sha256
  }

  function Digests(rows: seq<Row>): set<string> {
    set r | r in rows :: r.sha256
  }

  /** Some reservation from cycle `k` on cannot be written. */
  predicate UnusedFails(w: World, k: nat)
    requires k <= CYCLES
    decreases CYCLES - k
  {
    k < CYCLES && (!w.writeOk(k + 1) || UnusedFails(w, k + 1))
  }

  /** How many cycles have rows when none raised. */
  function RowCount(w: World): nat {
    var h := Halt(w, 0);
    if h < CYCLES then h + 1 else h
  }

  /** The matrix after all the cycles that ran, before it is validated. */
  function Assembled(w: World): Receipt {
    var n := RowCount(w);
    Report(Halt(w, 0) == CYCLES, Rows(w, n), Tail(w, n), |Digests(Rows(w, n))| == n, false)
  }

  /** What the handler reports when cycle `h` raised. */
  function BrokenReport(w: World, h: nat): Receipt
    requires h < CYCLES
  {
    var lost := w.starts(h) && w.cycle(h).Broke? && (!w.nowInReceipt || !w.writeOk(h + 1));
    var unused := UnusedFails(w, if HasOwnReceipt(w, h) then h + 1 else h);
    FailureReport(
      RunningCycles, Rows(w, h), if w.starts(h) then Some(h) else None, w.starts(h) && w.cycle(h).acted,
      Count(lost) + Count(unused))
  }

  /** What the file of the matrix is sent, unless the clock fails where the failure report is built. */
  function SentFinal(w: World): Receipt {
    var h := Halt(w, 0);
    if w.failsAt.Some? then FailureReport(w.failsAt.value, [], None, false, Count(UnusedFails(w, 0)))
    else if h < CYCLES && Breaks(w, h) then BrokenReport(w, h)
    else if h < CYCLES && UnusedFails(w, h + 1) then FailureReport(RunningCycles, Rows(w, h + 1), None, false, 0)
    else if !w.assembles then FailureReport(AssemblingMatrix, Rows(w, RowCount(w)), None, false, 0)
    else if h < CYCLES then Assembled(w)
    else
      match w.verdict(Assembled(w))
      case Accepted => Assembled(w)
      case Rejected => Assembled(w).(ok := false, rejected := true)
      case Raises => FailureReport(ValidatingMatrix, Rows(w, h), None, false, 0)
  }

  /** What the file of cycle `k` is sent. */
  function SentToCycle(w: World, k: nat): Receipt {
    var h := Halt(w, 0);
    if w.failsAt.Some? then Unused(k, ProducerFailed)
    else if k < h || (k == h && HasOwnReceipt(w, k)) then SentByCycle(w, k)
    else Unused(k, if Breaks(w, h) then ProducerFailed else EarlierCycleDidNotClose)
  }

  const OPEN := File(false, [], None)

  /** File `j` after its one attempt to write `r`. */
  function Attempted(w: World, j: nat, r: Receipt): File {
    File(true, [r], if w.writeOk(j) then Some(r) else None)
  }

  /** File `j` when the call is over. */
  function FileAfter(w: World, j: nat): File {
    if j != FINAL then Attempted(w, j, SentToCycle(w, j - 1))
    else if SentFinal(w).FailureReport? && !w.nowInFailure then OPEN
    else Attempted(w, FINAL, SentFinal(w))
  }

  /** The first `n` reservations: the matrix, then the cycles in order. */
  function Reservations(n: nat): seq<Event> {
    seq(n, j requires 0 <= j < n => Reserved(j))
  }

  const RESERVATIONS := Reservations(CYCLES + 1)

  predicate TouchesDevice(e: Event) {
    e.Device? || e.CycleRun?
  }

  /** The cycles a trace ran, in order. */
  function CyclesIn(trace: seq<Event>): seq<nat> {
    if trace == [] then []
    else
      var e := trace[|trace| - 1];
      CyclesIn(trace[..|trace| - 1]) + if e.CycleRun? then [e.cycle] else []
  }

  function First(n: nat): seq<nat> {
    seq(n, i requires 0 <= i < n => i)
  }

  datatype Step = Went(ok: bool) | Threw

  datatype Inner = Done(report: Receipt) | Escaped

  predicate Reserves(w: World) {
    w.identityOk && w.directoryOk && forall j :: 0 <= j <= CYCLES ==> w.reserveOk(j)
  }

  /** How the call ends. */
  function Expected(w: World): Outcome {
    if !w.identityOk then NotStarted
    else if !Reserves(w) then NotReserved
    else
      var sent := SentFinal(w);
      if sent.Report? && !sent.rejected && w.writeOk(FINAL) then Returned(sent)
      else if !w.nowInFailure then RaisedByClock
      else if sent.Report? || w.writeOk(FINAL) then Raised
      else RaisedUnfinalized
  }

  class Producer {
    const w: World
    var files: seq<File>
    var trace: seq<Event>
    var stage: Stage
    var current: Option<Receipt> // the receipt of the cycle that is running
    var acted: bool
    var rows: seq<Row>

    constructor (w: World)
      ensures this.w == w && files == [] && trace == []
    {
      this.w := w;
      files, trace, stage, current, acted, rows := [], [], AllOutputsReserved, None, false, [];
    }

    /** The final file is open, and so are those of the cycles from `n` on. */
    ghost predicate Ran(n: nat)
      reads this
    {
      && |files| == CYCLES + 1 && files[FINAL] == OPEN
      && (forall j :: 1 <= j <= CYCLES && j <= n ==> files[j] == Attempted(w, j, SentByCycle(w, j - 1)))
      && (forall j :: n < j <= CYCLES ==> files[j] == OPEN)
    }

    method Log(e: Event)
      modifies this`trace
      ensures trace == old(trace) + [e]
      ensures CyclesIn(trace) == CyclesIn(old(trace)) + if e.CycleRun? then [e.cycle] else []
    {
      trace := trace + [e];
      assert trace[..|trace| - 1] == old(trace);
    }

    /** Exactly the first `n` cycles were run, one after the other. */
    ghost predicate Executed(n: nat)
      reads this
    {
      CyclesIn(trace) == First(n)
    }

    /** `reserve_reboot_outputs`: the matrix, the directory, then the cycles. */
    method ReserveOutputs() returns (ok: bool)
      requires files == [] && trace == []
      modifies this
      ensures ok <==> w.directoryOk && forall j :: 0 <= j <= CYCLES ==> w.reserveOk(j)
      ensures ok ==> Ran(0) && trace == RESERVATIONS && current == None && rows == [] && Executed(0)
      ensures !ok ==> forall j :: 0 <= j < |files| ==> files[j] == OPEN.(closed := true)
      ensures trace == Reservations(|files|)
    {
      assert Executed(0) && trace == Reservations(0) && Reservations(1) == [Reserved(FINAL)];
      hide CyclesIn, First, Attempted, SentByCycle, Reservations;
      current, rows := None, [];
      if !w.reserveOk(FINAL) {
        return false;
      }
      files := [OPEN];
      Log(Reserved(FINAL));
      if !w.directoryOk {
        CloseAll();
        return false;
      }
      ok := ReserveCycles();
      if !ok {
        CloseAll();
      }
    }

    /** Software 1 to 5, then cold 1 to 3. */
    method ReserveCycles() returns (ok: bool)
      requires files == [OPEN] && trace == Reservations(1)
      modifies this`files, this`trace
      ensures ok <==> forall j :: 1 <= j <= CYCLES ==> w.reserveOk(j)
      ensures ok ==> |files| == CYCLES + 1
      ensures forall j :: 0 <= j < |files| ==> files[j] == OPEN
      ensures trace == Reservations(|files|) && CyclesIn(trace) == CyclesIn(old(trace))
    {
      hide CyclesIn;
      var k := 0;
      while k < CYCLES
        invariant k <= CYCLES
        invariant forall j :: 1 <= j <= k ==> w.reserveOk(j)
        invariant |files| == k + 1 && forall j :: 0 <= j <= k ==> files[j] == OPEN
        invariant trace == Reservations(k + 1) && CyclesIn(trace) == CyclesIn(old(trace))
      {
        if !w.reserveOk(k + 1) {
          return false;
        }
        files := files + [OPEN];
        Log(Reserved(k + 1));
        k := k + 1;
      }
      ok := true;
    }

    /** Closing without writing. */
    method CloseAll()
      modifies this`files
      ensures |files| == |old(files)|
      ensures forall j :: 0 <= j < |files| ==> files[j] == old(files)[j].(closed := true)
    {
      var j := 0;
      while j < |files|
        invariant j <= |files| == |old(files)|
        invariant forall i :: 0 <= i < |files| ==> files[i] == if i < j then old(files)[i].(closed := true) else old(files)[i]
      {
        if !files[j].closed {
          files := files[j := files[j].(closed := true)];
        }
        j := j + 1;
      }
    }

    /** `finalize_json_output`: writes, or fails to; closes in either case. */
    method Finalize(j: nat, r: Receipt) returns (ok: bool)
      requires j < |files| && files[j] == OPEN
      modifies this`files, this`trace
      ensures ok == w.writeOk(j)
      ensures files == old(files)[j := Attempted(w, j, r)] && trace == old(trace) + [Written(j)]
      ensures CyclesIn(trace) == CyclesIn(old(trace))
    {
      ok := w.writeOk(j);
      var f := files[j];
      assert f.attempts + [r] == [r];
      files := files[j := File(true, f.attempts + [r], if ok then Some(r) else f.content)];
      Log(Written(j));
    }

    /** `finalize_unused_cycle_reservations`; the files of cycles below `from` are closed already. */
    method FinalizeUnused(reason: Reason, ghost from: nat) returns (raised: bool)
      requires |files| == CYCLES + 1 && from <= CYCLES
      requires forall j :: 1 <= j <= from ==> files[j].closed
      requires forall j :: from < j <= CYCLES ==> files[j] == OPEN
      modifies this`files, this`trace
      ensures |files| == CYCLES + 1 && files[FINAL] == old(files)[FINAL]
      ensures forall j :: 1 <= j <= from ==> files[j] == old(files)[j]
      ensures forall j :: from < j <= CYCLES ==> files[j] == Attempted(w, j, Unused(j - 1, reason))
      ensures raised <==> UnusedFails(w, from)
      ensures old(trace) <= trace && CyclesIn(trace) == CyclesIn(old(trace))
    {
      raised := false;
      var k := 0;
      while k < CYCLES
        invariant k <= CYCLES
        invariant |files| == CYCLES + 1 && files[FINAL] == old(files)[FINAL]
        invariant forall j :: 1 <= j <= from ==> files[j] == old(files)[j]
        invariant forall j :: from < j <= k ==> files[j] == Attempted(w, j, Unused(j - 1, reason))
        invariant forall j :: from < j <= CYCLES && k < j ==> files[j] == OPEN
        invariant k <= from ==> !raised
        invariant from <= k ==> (UnusedFails(w, from) <==> raised || UnusedFails(w, k))
        invariant old(trace) <= trace && CyclesIn(trace) == CyclesIn(old(trace))
      {
        if !files[k + 1].closed {
          var ok := Finalize(k + 1, Unused(k, reason));
          raised := raised || !ok;
        }
        k := k + 1;
      }
    }

    /** One pass of either loop: the receipt of cycle `k` is started, run, written and hashed. */
    method RunCycle(k: nat, previous: string) returns (r: Step)
      requires k < CYCLES && Ran(k) && Executed(k) && rows == Rows(w, k) && previous == Previous(w, k) && current == None
      modifies this
      ensures old(trace) <= trace && stage == old(stage)
      ensures r.Threw? <==> Breaks(w, k)
      ensures r.Threw? ==> Broken(k)
      ensures r.Went? ==> current == None && Ran(k + 1) && Executed(k + 1) && rows == Rows(w, k + 1)
      ensures r.Went? ==> w.cycle(k).Finished? && r.ok == w.cycle(k).ok
    {
      assert First(k) + [k] == First(k + 1);
      hide SentByCycle, Attempted, Previous, CyclesIn, First;
      if !w.starts(k) {
        return Threw;
      }
      current, acted := Some(Cycle(k, w.seed, w.flash, previous, false, false)), false;
      Log(CycleRun(k));
      acted := w.cycle(k).acted;
      if w.cycle(k).Broke? {
        return Threw;
      }
      r := CloseCycle(k);
    }

    /** The receipt of a cycle that returned is written and hashed. */
    method CloseCycle(k: nat) returns (r: Step)
      requires k < CYCLES && w.starts(k) && w.cycle(k).Finished? && acted == w.cycle(k).acted
      requires Ran(k) && Executed(k + 1) && rows == Rows(w, k) && current == Some(Finishes(w, k, false))
      modifies this`files, this`trace, this`rows, this`current
      ensures old(trace) <= trace && Executed(k + 1)
      ensures r.Threw? <==> Breaks(w, k)
      ensures r.Threw? ==> Broken(k)
      ensures r.Went? ==> current == None && Ran(k + 1) && rows == Rows(w, k + 1)
      ensures r.Went? ==> r.ok == w.cycle(k).ok
    {
      assert SentByCycle(w, k) == Finishes(w, k, w.cycle(k).ok);
      hide SentByCycle, Attempted, Previous, CyclesIn, First;
      var receipt := current.value.(ok := w.cycle(k).ok, failed := false);
      var written := Finalize(k + 1, receipt);
      if !written || !w.hashOk(k) {
        return Threw;
      }
      rows := rows + [Row(k, w.digest(receipt))];
      current := None;
      r := Went(w.cycle(k).ok);
    }

    /** Cycle `h` raised: before it was run, in it, or when its receipt was written or hashed. */
    ghost predicate Broken(h: nat)
      reads this
    {
      && rows == Rows(w, h)
      && (if w.starts(h) then current == Some(Finishes(w, h, false)) && acted == w.cycle(h).acted else current == None)
      && Ran(if w.starts(h) && w.cycle(h).Finished? then h + 1 else h)
      && Executed(if w.starts(h) then h + 1 else h)
    }

    /** What a loop over the cycles below `to` leaves behind. */
    ghost predicate Left(r: Step, tail: string, to: nat)
      requires to <= CYCLES
      reads this
    {
      var h := Halt(w, 0);
      match r
      case Threw =>
        h < to && Breaks(w, h) && Broken(h)
      case Went(ok) =>
        var n := if ok then to else h + 1;
        && (if ok then to <= h else h < to && !Breaks(w, h))
        && current == None && Ran(n) && Executed(n) && rows == Rows(w, n) && tail == Tail(w, n)
    }

    /** One of the two loops over consecutive cycles; it ends early after a cycle that is not ok. */
    method RunPhase(from: nat, to: nat, previous: string) returns (r: Step, tail: string)
      requires from <= to <= CYCLES && from <= Halt(w, 0)
      requires current == None && Ran(from) && Executed(from) && rows == Rows(w, from) && previous == Tail(w, from)
      modifies this
      ensures old(trace) <= trace && stage == old(stage)
      ensures Left(r, tail, to)
    {
      hide Attempted, SentByCycle, Finishes, Ran, Broken, Executed, Rows, RowOf, Tail, Previous, Proceeds, Halt;
      tail := previous;
      var k := from;
      while k < to
        invariant from <= k <= to && k <= Halt(w, 0)
        invariant current == None && Ran(k) && Executed(k) && rows == Rows(w, k) && tail == Tail(w, k)
        invariant old(trace) <= trace && stage == old(stage)
      {
        HaltFrom(w, 0, k);
        TailIsPrevious(w, k);
        HaltStep(w, k);
        LastRow(w, k);
        r := RunCycle(k, tail);
        if r.Threw? {
          return;
        }
        tail := rows[|rows| - 1].sha256;
        if !r.ok {
          return;
        }
        k := k + 1;
      }
      r := Went(true);
    }

    /** The software cycles, then the cold ones if all software cycles closed. */
    method RunCycles() returns (r: Step, tail: string)
      requires Ran(0) && Executed(0) && rows == [] && current == None
      modifies this
      ensures old(trace) <= trace && stage == old(stage)
      ensures Left(r, tail, CYCLES)
    {
      r, tail := RunPhase(0, HashChain.SOFTWARE_CYCLES, w.flash);
      if r.Went? && r.ok {
        r, tail := RunPhase(HashChain.SOFTWARE_CYCLES, CYCLES, tail);
      }
    }

    /** Everything up to the first cycle, target resolution included; every stage may raise. */
    method Prepare() returns (ok: bool)
      modifies this`stage, this`trace
      ensures old(trace) <= trace && CyclesIn(trace) == CyclesIn(old(trace))
      ensures ok <==> w.failsAt.None?
      ensures !ok ==> stage == w.failsAt.value
    {
      hide CyclesIn;
      stage := ResolvingTarget;
      Log(Device(stage));
      if w.failsAt == Some(stage) { return false; }
      stage := ValidatingSeed;
      if w.failsAt == Some(stage) { return false; }
      stage := ValidatingClosingFlash;
      if w.failsAt == Some(stage) { return false; }
      stage := ResolvingPostReinstall;
      Log(Device(stage));
      if w.failsAt == Some(stage) { return false; }
      stage := OpeningSerial;
      Log(Device(stage));
      if w.failsAt == Some(stage) { return false; }
      stage := CapturingIdentity;
      Log(Device(stage));
      if w.failsAt == Some(stage) { return false; }
      stage := CapturingState;
      Log(Device(stage));
      if w.failsAt == Some(stage) { return false; }
      ok := true;
    }

    ghost predicate CyclesSettled()
      reads this
    {
      |files| == CYCLES + 1 && forall j :: 1 <= j <= CYCLES ==> files[j] == Attempted(w, j, SentToCycle(w, j - 1))
    }

    /** The final file was closed by the one attempt to write `SentFinal(w)`. */
    ghost predicate Settled()
      reads this
    {
      CyclesSettled() && files[FINAL] == Attempted(w, FINAL, SentFinal(w))
    }

    /** Where an exception can be caught: before the cycles, in one, or after them. */
    ghost predicate Interrupted()
      reads this
    {
      && Executed(RunCount(w))
      && if w.failsAt.Some? then Ran(0) && rows == [] && current == None && stage == w.failsAt.value
      else if Halt(w, 0) < CYCLES && Breaks(w, Halt(w, 0)) then Broken(Halt(w, 0)) && stage == RunningCycles
      else
        && CyclesSettled() && current == None
        && (files[FINAL] == OPEN ==> SentFinal(w) == FailureReport(stage, rows, None, false, 0))
        && (files[FINAL] != OPEN ==> Settled() && SentFinal(w).Report?)
    }

    /** `_verify_reboot_matrix_after_reservation` */
    method AfterReservation() returns (r: Inner)
      requires Ran(0) && Executed(0) && rows == [] && current == None
      modifies this
      ensures old(trace) <= trace && Executed(RunCount(w))
      ensures r.Done? ==> Settled() && r.report == SentFinal(w) && w.writeOk(FINAL) && SentFinal(w).Report? && !r.report.rejected
      ensures r.Escaped? ==> Interrupted() && (SentFinal(w).Report? ==> !w.writeOk(FINAL) || SentFinal(w).rejected)
    {
      var prepared := Prepare();
      if !prepared {
        return Escaped;
      }
      stage := RunningCycles;
      var ran, tail := CloseAllCycles();
      if ran.Threw? {
        return Escaped;
      }
      r := FinishMatrix(ran.ok, tail);
    }

    /** The cycles, then the receipts of those that did not run. */
    method CloseAllCycles() returns (r: Step, tail: string)
      requires Ran(0) && Executed(0) && rows == [] && current == None && w.failsAt.None? && stage == RunningCycles
      modifies this
      ensures old(trace) <= trace && Executed(RunCount(w))
      ensures r.Threw? ==> Interrupted() && SentFinal(w).FailureReport?
      ensures r.Went? ==> CyclesReturned(r.ok, tail)
    {
      hide CyclesIn, First, Finishes, Previous;
      r, tail := RunCycles();
      if r.Threw? {
        return;
      }
      var raised := FinalizeUnused(EarlierCycleDidNotClose, RowCount(w));
      if raised {
        r := Threw;
      }
    }

    /** All cycles are closed and none raised. */
    ghost predicate CyclesReturned(allOk: bool, tail: string)
      reads this
    {
      var h := Halt(w, 0);
      var n := RowCount(w);
      && w.failsAt.None? && (allOk <==> h == CYCLES) && (h < CYCLES ==> !Breaks(w, h) && !UnusedFails(w, h + 1))
      && CyclesSettled() && files[FINAL] == OPEN && current == None && rows == Rows(w, n) && tail == Tail(w, n)
      && Executed(RunCount(w))
    }

    /** The matrix is assembled, validated if it claims to be ok, and written. */
    method FinishMatrix(allOk: bool, tail: string) returns (r: Inner)
      requires CyclesReturned(allOk, tail)
      modifies this`files, this`trace, this`stage
      ensures old(trace) <= trace && CyclesIn(trace) == CyclesIn(old(trace))
      ensures r.Done? ==> Settled() && r.report == SentFinal(w) && w.writeOk(FINAL) && SentFinal(w).Report? && !r.report.rejected
      ensures r.Escaped? ==> Interrupted() && (SentFinal(w).Report? ==> !w.writeOk(FINAL) || SentFinal(w).rejected)
    {
      RowsLength(w, RowCount(w));
      SentByReturnedCycles(w);
      assert w.failsAt.None? && !(Halt(w, 0) < CYCLES && Breaks(w, Halt(w, 0)));
      assert allOk == (Halt(w, 0) == CYCLES);
      hide Rows, Halt, Tail, Breaks, UnusedFails, Attempted, SentToCycle, SentFinal, CyclesIn, First, RunCount, RowCount;
      var complete := |rows| == CYCLES;
      stage := AssemblingMatrix;
      if !w.assembles {
        return Escaped;
      }
      var report := Report(allOk && complete, rows, tail, |Digests(rows)| == |rows|, false);
      hide Assembled;
      if report.ok {
        stage := ValidatingMatrix;
        match w.verdict(report) {
          case Accepted =>
          case Raises => return Escaped;
          case Rejected =>
            report := report.(ok := false, rejected := true);
            var _ := Finalize(FINAL, report);
            return Escaped;
        }
      }
      stage := FinalizingMatrix;
      var written := Finalize(FINAL, report);
      if !written {
        return Escaped;
      }
      stage := Complete;
      r := Done(report);
    }

    /** The failure receipt of the cycle that raised, unless its own was sent already. */
    method FailCurrent() returns (errors: nat)
      requires Interrupted()
      modifies this`files, this`trace
      ensures old(trace) <= trace && CyclesIn(trace) == CyclesIn(old(trace))
      ensures |files| == CYCLES + 1 && files[FINAL] == old(files)[FINAL]
      ensures current.None? ==> files == old(files) && errors == 0
      ensures current.Some? ==>
        var h := Halt(w, 0);
        && w.failsAt.None? && h < CYCLES && Breaks(w, h) && w.starts(h)
        && current.value.cycle == h && acted == w.cycle(h).acted
        && errors == Count(w.cycle(h).Broke? && (!w.nowInReceipt || !w.writeOk(h + 1)))
        && Ran(if HasOwnReceipt(w, h) then h + 1 else h)
    {
      hide CyclesIn, First, Previous, SentFinal, SentToCycle;
      errors := 0;
      if current.Some? && !files[current.value.cycle + 1].closed {
        if w.nowInReceipt {
          var written := Finalize(current.value.cycle + 1, current.value.(ok := false, failed := true));
          if !written { errors := errors + 1; }
        } else {
          errors := errors + 1;
        }
      }
    }

    /** The cycle that raised gets a failure receipt if it has none and the clock answers; then all
        other open files of cycles are marked as not executed. */
    method SettleCycles() returns (errors: nat)
      requires Interrupted()
      modifies this`files, this`trace
      ensures old(trace) <= trace && CyclesIn(trace) == CyclesIn(old(trace))
      ensures CyclesSettled() && files[FINAL] == old(files)[FINAL]
      ensures files[FINAL] == OPEN ==>
        SentFinal(w) == FailureReport(
          stage, rows, if current.Some? then Some(current.value.cycle) else None, current.Some? && acted, errors)
    {
      hide CyclesIn, First, Finishes;
      ghost var h := Halt(w, 0);
      ghost var from :=
        if w.failsAt.Some? then 0
        else if h < CYCLES && Breaks(w, h) then if HasOwnReceipt(w, h) then h + 1 else h
        else CYCLES;
      errors := FailCurrent();
      var raised := FinalizeUnused(ProducerFailed, from);
      if raised { errors := errors + 1; }
    }

    /** The exception handler: whatever is still open gets a receipt that says so. Its two calls of
        the clock may raise, the first inside and the second outside a `try`. */
    method Recover() returns (outcome: Outcome)
      requires Interrupted()
      modifies this
      ensures old(trace) <= trace && Executed(RunCount(w))
      ensures CyclesSettled() && files[FINAL] == FileAfter(w, FINAL)
      ensures outcome ==
        if !w.nowInFailure then RaisedByClock
        else if SentFinal(w).Report? || w.writeOk(FINAL) then Raised
        else RaisedUnfinalized
    {
      assert files[FINAL] == OPEN || files[FINAL].closed;
      hide CyclesIn, First, SentFinal, SentToCycle, Attempted;
      var errors := SettleCycles();
      if !w.nowInFailure {
        return RaisedByClock;
      }
      var key := if current.Some? then Some(current.value.cycle) else None;
      var failure := FailureReport(stage, rows, key, current.Some? && acted, errors);
      if !files[FINAL].closed {
        var written := Finalize(FINAL, failure);
        if !written {
          return RaisedUnfinalized;
        }
      }
      outcome := Raised;
    }

    /** `verify_reboot_matrix` */
    method VerifyRebootMatrix() returns (outcome: Outcome)
      requires files == [] && trace == []
      modifies this
      ensures outcome == Expected(w)
      ensures outcome.NotStarted? ==> files == [] && trace == []
      ensures outcome.NotReserved? ==> forall j :: 0 <= j < |files| ==> files[j].closed && files[j].attempts == []
      ensures Reserves(w) ==> |files| == CYCLES + 1 && forall j :: 0 <= j <= CYCLES ==> files[j] == FileAfter(w, j)
      ensures Reserves(w) ==> CyclesIn(trace) == First(RunCount(w))
      ensures forall i :: 0 <= i < |trace| && TouchesDevice(trace[i]) ==> i >= |RESERVATIONS| && RESERVATIONS <= trace
    {
      if !w.identityOk {
        return NotStarted;
      }
      var reserved := ReserveOutputs();
      if !reserved {
        return NotReserved;
      }
      hide Attempted, SentFinal, SentToCycle, SentByCycle, Halt, CyclesIn, First, RunCount;
      var r := AfterReservation();
      if r.Done? {
        outcome := Returned(r.report);
      } else {
        outcome := Recover();
      }
    }
  }

  lemma {:induction false} RowsLength(w: World, n: nat)
    ensures |Rows(w, n)| == n
  {
    if n > 0 {
      RowsLength(w, n - 1);
    }
  }

  /** What the matrix is sent once all cycles returned and all their files are closed. */
  lemma SentByReturnedCycles(w: World)
    requires w.failsAt.None? && (Halt(w, 0) < CYCLES ==> !Breaks(w, Halt(w, 0)) && !UnusedFails(w, Halt(w, 0) + 1))
    ensures SentFinal(w) ==
      if !w.assembles then FailureReport(AssemblingMatrix, Rows(w, RowCount(w)), None, false, 0)
      else if Halt(w, 0) < CYCLES then Assembled(w)
      else match w.verdict(Assembled(w))
        case Accepted => Assembled(w)
        case Rejected => Assembled(w).(ok := false, rejected := true)
        case Raises => FailureReport(ValidatingMatrix, Rows(w, RowCount(w)), None, false, 0)
    ensures Halt(w, 0) < CYCLES ==> RowCount(w) == Halt(w, 0) + 1
    ensures Halt(w, 0) >= CYCLES ==> RowCount(w) == Halt(w, 0) == CYCLES
  {
    HaltMeans(w, 0);
    hide Halt, Breaks, UnusedFails;
  }

  lemma TailIsPrevious(w: World, k: nat)
    requires k > 0 ==> Proceeds(w, k - 1)
    ensures Tail(w, k) == Previous(w, k)
  {
  }

  /** No cycle before the halting one stops the run. */
  lemma {:induction false} HaltFrom(w: World, from: nat, k: nat)
    requires from <= k <= CYCLES && k <= Halt(w, from)
    ensures Halt(w, from) == Halt(w, k)
    ensures k > from ==> Proceeds(w, k - 1)
    decreases k - from
  {
    if from < k {
      HaltFrom(w, from + 1, k);
    }
  }

  lemma HaltStep(w: World, k: nat)
    requires k < CYCLES
    ensures if Proceeds(w, k) then Halt(w, k) == Halt(w, k + 1) >= k + 1 else Halt(w, k) == k
    ensures Proceeds(w, k) <==> !Breaks(w, k) && w.cycle(k).Finished? && w.cycle(k).ok
  {
    HaltMeans(w, k);
    if Proceeds(w, k) { HaltMeans(w, k + 1); }
  }

  lemma LastRow(w: World, k: nat)
    ensures var rows := Rows(w, k + 1); rows != [] && rows[|rows| - 1].sha256 == Tail(w, k + 1)
  {
    hide RowOf;
  }

  // ----- what the outcome means

  lemma {:induction false} HaltMeans(w: World, k: nat)
    requires k <= CYCLES
    ensures k <= Halt(w, k) <= CYCLES
    ensures forall i :: k <= i < Halt(w, k) ==> Proceeds(w, i)
    ensures Halt(w, k) < CYCLES ==> !Proceeds(w, Halt(w, k))
    decreases CYCLES - k
  {
    if k < CYCLES && Proceeds(w, k) {
      HaltMeans(w, k + 1);
    }
  }

  // ----- the handler's clock

  /** Every file ends closed exactly when no exception was caught or the handler's clock still
      answers where the failure report is built; the cycle files always do. */
  lemma AllClosedExactly(w: World)
    ensures forall j :: 1 <= j <= CYCLES ==> FileAfter(w, j).closed
    ensures (forall j :: 0 <= j <= CYCLES ==> FileAfter(w, j).closed) <==> SentFinal(w).Report? || w.nowInFailure
  {
    assert FileAfter(w, FINAL).closed <==> SentFinal(w).Report? || w.nowInFailure by {
      SentFinalKind(w);
      hide SentFinal;
    }
    assert forall j :: 1 <= j <= CYCLES ==> FileAfter(w, j).closed;
    hide FileAfter;
  }

  lemma SentFinalKind(w: World)
    ensures SentFinal(w).Report? || SentFinal(w).FailureReport?
  {
  }

  /** The receipts tell which cycles were run, in all cases but one: a cycle was run and raised
      half way, and the clock fails where its failure receipt is built. */
  lemma ReceiptsTellWhatRan(w: World)
    ensures (forall k: nat :: k < CYCLES ==> (SentToCycle(w, k).Cycle? <==> k < RunCount(w))) <==>
      !(w.failsAt.None? && Halt(w, 0) < CYCLES && w.starts(Halt(w, 0)) && w.cycle(Halt(w, 0)).Broke? && !w.nowInReceipt)
  {
    HaltMeans(w, 0);
    var h := Halt(w, 0);
    hide Halt, Finishes;
    if h < CYCLES && w.failsAt.None? {
      assert SentToCycle(w, h).Cycle? <==> HasOwnReceipt(w, h);
    }
  }

  /** A clock that fails in the handler of a cycle that may have rebooted the device. */
  const CLOCK_FAILS := World(
    true, _ => true, true, None, "", "", _ => true, _ => Broke(true), _ => true, _ => true, _ => "", true, _ => Accepted,
    false, false)

  /** The cycle that was run is recorded as not executed, and the matrix is left open and empty. */
  lemma ClockLosesReceipts()
    ensures Reserves(CLOCK_FAILS) && RunCount(CLOCK_FAILS) == 1 && Expected(CLOCK_FAILS) == RaisedByClock
    ensures SentToCycle(CLOCK_FAILS, 0) == Unused(0, ProducerFailed)
    ensures FileAfter(CLOCK_FAILS, FINAL) == OPEN
  {
    assert Halt(CLOCK_FAILS, 0) == 0;
  }

  /** The matrix is sent an ok report only if all eight cycles closed and their receipts were
      written, and then exactly when it is assembled and the producer's own validation accepts it. */
  lemma FinalOkExactly(w: World)
    ensures SentFinal(w).Report? && SentFinal(w).ok <==>
      w.failsAt.None? && (forall k :: 0 <= k < CYCLES ==> Proceeds(w, k)) && w.assembles && w.verdict(Assembled(w)).Accepted?
  {
    HaltMeans(w, 0);
  }

  /** Behind an ok report every cycle file holds an ok receipt; a cycle file never claims more than
      its cycle did. */
  lemma OkReceiptsBehindOkReport(w: World, k: nat)
    requires k < CYCLES
    ensures SentFinal(w).Report? && SentFinal(w).ok ==>
      SentToCycle(w, k) == Finishes(w, k, true) && Attempted(w, k + 1, SentToCycle(w, k)).content == Some(Finishes(w, k, true))
    ensures SentToCycle(w, k).Cycle? && SentToCycle(w, k).ok ==>
      w.cycle(k).Finished? && w.cycle(k).ok && (forall i :: 0 <= i < k ==> Proceeds(w, i))
  {
    HaltMeans(w, 0);
    FinalOkExactly(w);
    assert SentFinal(w).Report? && SentFinal(w).ok ==> Proceeds(w, k) && w.failsAt.None? && k < Halt(w, 0);
    hide SentFinal, Halt, Previous;
  }

  /** Cycles behind the one that stopped the run are marked as not executed, and the call is
      reported as failed or not ok. */
  lemma NothingAfterTheHalt(w: World, k: nat)
    requires k < CYCLES && w.failsAt.None? && k > Halt(w, 0)
    ensures SentToCycle(w, k).Unused?
    ensures Expected(w).Returned? ==> !Expected(w).report.ok && |Expected(w).report.rows| == Halt(w, 0) + 1
  {
    HaltMeans(w, 0);
    RowsLength(w, Halt(w, 0) + 1);
  }
}
