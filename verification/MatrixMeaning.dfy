/** What the nine files of a reboot matrix are sent, told by what happened. */
module MatrixMeaning {
  import opened RebootMatrix
  import opened Results
  import Sorting

  /** Cycle `k` was run, its receipt was written and hashed, and it was ok. */
  predicate RanOk(w: World, k: nat) {
    w.starts(k) && w.cycle(k).Finished? && w.cycle(k).ok && w.writeOk(k + 1) && w.hashOk(k)
  }

  /** All cycles before the `h`-th went well, and that one, if there is one, did not. */
  predicate StopsAt(w: World, h: nat) {
    h <= 8 && (forall k :: 0 <= k < h ==> RanOk(w, k)) && (h < 8 ==> !RanOk(w, h))
  }

  /** An exception came out of cycle `k`. */
  predicate Raises(w: World, k: nat) {
    !w.starts(k) || w.cycle(k).Broke? || !w.writeOk(k + 1) || !w.hashOk(k)
  }

  lemma StopsExactly(w: World, h: nat)
    ensures StopsAt(w, h) <==> h == Halt(w, 0)
  {
    HaltMeans(w, 0);
    forall k: nat ensures RanOk(w, k) <==> Proceeds(w, k) {
    }
    hide Proceeds, RanOk, Halt;
    var h' := Halt(w, 0);
    if StopsAt(w, h) {
      assert !(h < h');
      assert !(h' < h);
    }
  }

  /** The file of cycle `k`, when the cycles stop at the `h`-th. */
  lemma CycleFileTells(w: World, h: nat, k: nat)
    requires StopsAt(w, h) && k < 8
    ensures var sent := SentToCycle(w, k);
      var before := if k == 0 then w.flash else w.digest(SentToCycle(w, k - 1));
      // the call failed before the first cycle
      && (w.failsAt.Some? ==> sent == Unused(k, ProducerFailed))
      // the cycle ran to its end, was cut short, or was not run
      && (w.failsAt.None? && k < h ==> sent == Cycle(k, w.seed, w.flash, before, true, false))
      && (w.failsAt.None? && k == h && w.starts(k) && w.cycle(k).Finished? ==>
            sent == Cycle(k, w.seed, w.flash, before, w.cycle(k).ok, false))
      && (w.failsAt.None? && k == h && w.starts(k) && w.cycle(k).Broke? && w.nowInReceipt ==>
            sent == Cycle(k, w.seed, w.flash, before, false, true))
      && (w.failsAt.None? && k == h && (!w.starts(k) || (w.cycle(k).Broke? && !w.nowInReceipt)) ==>
            sent == Unused(k, ProducerFailed))
      && (w.failsAt.None? && k > h ==>
            sent == Unused(k, if Raises(w, h) then ProducerFailed else EarlierCycleDidNotClose))
    ensures FileAfter(w, k + 1) == File(true, [SentToCycle(w, k)], if w.writeOk(k + 1) then Some(SentToCycle(w, k)) else None)
  {
    StopsExactly(w, h);
    if w.failsAt.None? && k <= h {
      if k > 0 {
        assert RanOk(w, k - 1);
        assert SentToCycle(w, k - 1) == Finishes(w, k - 1, true) by {
          hide Halt, Previous;
        }
      }
      assert Previous(w, k) == if k == 0 then w.flash else w.digest(SentToCycle(w, k - 1));
    }
    hide Halt, Previous, SentFinal;
  }

  /** The first `n` rows: each cycle with the digest of the receipt it was sent. */
  predicate RowsTell(w: World, rows: seq<Row>, n: nat) {
    |rows| == n && forall i :: 0 <= i < n ==> rows[i] == Row(i, w.digest(SentToCycle(w, i)))
  }

  /** Some file of a cycle from `k` on cannot be written. */
  predicate SomeUnwritable(w: World, k: nat) {
    exists j :: k < j <= 8 && !w.writeOk(j)
  }

  lemma {:induction false} UnusedExactly(w: World, k: nat)
    requires k <= 8
    ensures UnusedFails(w, k) <==> SomeUnwritable(w, k)
    decreases 8 - k
  {
    if k < 8 {
      UnusedExactly(w, k + 1);
    }
  }

  lemma {:induction false} RowsTold(w: World, h: nat, n: nat)
    requires StopsAt(w, h) && w.failsAt.None? && n <= 8
    requires n <= h || (n == h + 1 && !Raises(w, h))
    ensures RowsTell(w, Rows(w, n), n)
  {
    if n > 0 {
      RowsTold(w, h, n - 1);
      StopsExactly(w, h);
      assert SentToCycle(w, n - 1) == SentByCycle(w, n - 1) by {
        hide Halt, Previous;
      }
      hide SentToCycle, SentByCycle;
    }
  }

  /** No two rows have the same digest. */
  predicate DigestsApart(rows: seq<Row>) {
    forall i, j :: 0 <= i < j < |rows| ==> rows[i].sha256 != rows[j].sha256
  }

  lemma DigestsCounted(rows: seq<Row>)
    ensures |Digests(rows)| == |rows| <==> DigestsApart(rows)
  {
    var digests := seq(|rows|, i requires 0 <= i < |rows| => rows[i].sha256);
    Sorting.DistinctBySize(digests);
    assert Digests(rows) == Sorting.ToSet(digests) by {
      forall d ensures d in Digests(rows) <==> d in Sorting.ToSet(digests) {
        if d in Sorting.ToSet(digests) {
          var i :| 0 <= i < |digests| && digests[i] == d;
          assert rows[i] in rows;
        }
        if d in Digests(rows) {
          var r :| r in rows && r.sha256 == d;
          var i :| 0 <= i < |rows| && rows[i] == r;
          assert digests[i] == d;
        }
      }
    }
    hide Digests, Sorting.ToSet;
    if DigestsApart(rows) {
      assert forall i, j :: 0 <= i < j < |digests| ==> digests[i] != digests[j];
    } else {
      var i, j :| 0 <= i < j < |rows| && rows[i].sha256 == rows[j].sha256;
      assert digests[i] == digests[j];
    }
  }

  /** The matrix assembled after `n` cycles. */
  predicate MatrixTells(w: World, report: Receipt, n: nat, ok: bool, rejected: bool) {
    && report.Report? && report.ok == ok && report.rejected == rejected && RowsTell(w, report.rows, n)
    && report.tail == (if n == 0 then w.flash else w.digest(SentToCycle(w, n - 1)))
    && (report.unique <==> DigestsApart(report.rows))
  }

  /** A failure report. */
  predicate FailureTells(w: World, report: Receipt, stage: Stage, n: nat, current: Option<nat>, acted: bool, errors: nat) {
    && report.FailureReport? && report.stage == stage && RowsTell(w, report.rows, n) && report.current == current
    && report.acted == acted && report.finalizeErrors == errors
  }

  /** What the file of the matrix is sent, when the cycles stop at the `h`-th. */
  ghost predicate FinalTells(w: World, h: nat, sent: Receipt)
    requires h <= 8
  {
    var n := if h < 8 then h + 1 else 8;
    // a stage before the first cycle raised
    if w.failsAt.Some? then FailureTells(w, sent, w.failsAt.value, 0, None, false, Count(SomeUnwritable(w, 0)))
    // cycle `h` raised: the errors are those of its own receipt and of the receipts of the cycles not executed
    else if h < 8 && Raises(w, h) then
      var lost := w.starts(h) && w.cycle(h).Broke? && (!w.nowInReceipt || !w.writeOk(h + 1));
      var own := w.starts(h) && (w.cycle(h).Finished? || w.nowInReceipt);
      FailureTells(
        w, sent, RunningCycles, h, if w.starts(h) then Some(h) else None, w.starts(h) && w.cycle(h).acted,
        Count(lost) + Count(SomeUnwritable(w, if own then h + 1 else h)))
    // a cycle was not ok, and the file of a later one could not be written
    else if h < 8 && SomeUnwritable(w, h + 1) then FailureTells(w, sent, RunningCycles, n, None, false, 0)
    else if !w.assembles then FailureTells(w, sent, AssemblingMatrix, n, None, false, 0)
    else if h < 8 then MatrixTells(w, sent, n, false, false)
    // all eight cycles were ok: the verdict on the matrix decides
    else
      exists matrix :: MatrixTells(w, matrix, 8, true, false) &&
        match w.verdict(matrix)
        case Accepted => sent == matrix
        case Rejected => sent == matrix.(ok := false, rejected := true)
        case Raises => FailureTells(w, sent, ValidatingMatrix, 8, None, false, 0)
  }

  lemma MatrixTold(w: World, h: nat)
    requires StopsAt(w, h) && w.failsAt.None? && (h < 8 ==> !Raises(w, h))
    ensures MatrixTells(w, Assembled(w), if h < 8 then h + 1 else 8, h == 8, false)
  {
    var n := if h < 8 then h + 1 else 8;
    StopsExactly(w, h);
    RowsTold(w, h, n);
    DigestsCounted(Rows(w, n));
    RowsLength(w, n);
    TailTold(w, n);
    hide Halt, SentToCycle, Digests, DigestsApart, Rows;
  }

  lemma TailTold(w: World, n: nat)
    requires n > 0 ==> RowsTell(w, Rows(w, n), n)
    ensures Tail(w, n) == if n == 0 then w.flash else w.digest(SentToCycle(w, n - 1))
  {
    hide SentToCycle, SentByCycle;
    if n > 0 {
      RowsLength(w, n);
      RowsLength(w, n - 1);
      assert Rows(w, n)[n - 1] == RowOf(w, n - 1);
    }
  }

  /** The report on a cycle that raised. */
  lemma BrokenTells(w: World, h: nat)
    requires StopsAt(w, h) && w.failsAt.None? && h < 8 && Raises(w, h)
    ensures FinalTells(w, h, SentFinal(w))
  {
    StopsExactly(w, h);
    UnusedExactly(w, if HasOwnReceipt(w, h) then h + 1 else h);
    RowsTold(w, h, h);
    hide Halt, Rows, RowsTell, UnusedFails, SomeUnwritable, MatrixTells, Assembled, StopsAt;
  }

  /** The matrix behind a cycle that returned but was not ok. */
  lemma StoppedTells(w: World, h: nat)
    requires StopsAt(w, h) && w.failsAt.None? && h < 8 && !Raises(w, h)
    ensures FinalTells(w, h, SentFinal(w))
  {
    StopsExactly(w, h);
    UnusedExactly(w, h + 1);
    RowsTold(w, h, h + 1);
    MatrixTold(w, h);
    hide Halt, Rows, RowsTell, UnusedFails, SomeUnwritable, MatrixTells, Assembled, StopsAt, BrokenReport;
  }

  /** The matrix behind eight ok cycles. */
  lemma CompleteTells(w: World)
    requires StopsAt(w, 8) && w.failsAt.None?
    ensures FinalTells(w, 8, SentFinal(w))
  {
    StopsExactly(w, 8);
    RowsTold(w, 8, 8);
    MatrixTold(w, 8);
    hide Halt, Rows, RowsTell, UnusedFails, SomeUnwritable, MatrixTells, Assembled, StopsAt, BrokenReport, Raises, Breaks;
  }

  /** What the file of the matrix is sent, in every case. */
  lemma MatrixFileTells(w: World, h: nat)
    requires StopsAt(w, h)
    ensures FinalTells(w, h, SentFinal(w))
    ensures FileAfter(w, 0) ==
      if SentFinal(w).FailureReport? && !w.nowInFailure then File(false, [], None)
      else File(true, [SentFinal(w)], if w.writeOk(0) then Some(SentFinal(w)) else None)
  {
    assert FileAfter(w, 0) ==
      if SentFinal(w).FailureReport? && !w.nowInFailure then File(false, [], None)
      else File(true, [SentFinal(w)], if w.writeOk(0) then Some(SentFinal(w)) else None) by {
      hide SentFinal;
    }
    hide FileAfter;
    if w.failsAt.Some? {
      UnusedExactly(w, 0);
      hide Halt, UnusedFails, SomeUnwritable;
    } else {
      hide SentFinal, FinalTells;
      if h == 8 {
        CompleteTells(w);
      } else if Raises(w, h) {
        BrokenTells(w, h);
      } else {
        StoppedTells(w, h);
      }
    }
  }

  /** The call returns its matrix exactly when everything was reserved, nothing raised, all files were written and,
      with all eight cycles ok, the matrix was accepted. */
  lemma ReturnsExactly(w: World, h: nat)
    requires StopsAt(w, h)
    ensures Expected(w).Returned? <==>
      && w.identityOk && w.directoryOk && (forall j :: 0 <= j <= 8 ==> w.reserveOk(j)) && w.failsAt.None?
      && (h < 8 ==> !Raises(w, h) && !SomeUnwritable(w, h + 1))
      && w.assembles && (h == 8 ==> w.verdict(Assembled(w)).Accepted?) && w.writeOk(0)
    ensures Expected(w).Returned? ==> MatrixTells(w, Expected(w).report, if h < 8 then h + 1 else 8, h == 8, false)
  {
    StopsExactly(w, h);
    if h < 8 {
      UnusedExactly(w, h + 1);
    }
    if w.failsAt.None? && (h < 8 ==> !Raises(w, h)) {
      MatrixTold(w, h);
    }
    hide Halt, Rows, RowsTell, UnusedFails, SomeUnwritable, MatrixTells, StopsAt, Tail;
  }

  /** Every other way the call ends. */
  lemma EndsExactly(w: World)
    ensures var reserved := w.directoryOk && forall j :: 0 <= j <= 8 ==> w.reserveOk(j);
      match Expected(w)
      case NotStarted => !w.identityOk
      case NotReserved => w.identityOk && !reserved
      case Returned(report) => w.identityOk && reserved && report == SentFinal(w) && report.Report? && w.writeOk(0)
      case RaisedByClock => w.identityOk && reserved && !w.nowInFailure
      case Raised => w.identityOk && reserved && w.nowInFailure && (SentFinal(w).Report? || w.writeOk(0))
      case RaisedUnfinalized => w.identityOk && reserved && w.nowInFailure && SentFinal(w).FailureReport? && !w.writeOk(0)
  {
    SentFinalKind(w);
    hide SentFinal;
  }
}
