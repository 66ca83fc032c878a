/**
 * The delivery loop of `handle_confirm_broadcast` (bot.py): the staged
 * message is copied to every recipient of the snapshot in turn, one report
 * line goes to the admin for each, and successes and failures are counted.
 * The platform's answer to each copy is an input: `copy(userId)`.
 */
module Broadcast {
  import opened Wrappers
  import opened Store

  /** The outcome of `copy_message`: success, `TelegramBadRequest` with its text, or any other exception. */
  datatype Delivery = Ok | BadRequest(reason: string) | Other

  /** A per-recipient report line: delivered, or failed with the error text (None: "unknown error"). */
  datatype ReportLine = Delivered(user: Recipient) | Failed(user: Recipient, reason: Option<string>)

  /** The closing report: successes, failures and the size of the snapshot. */
  datatype Tally = Tally(success: nat, failed: nat, total: nat)

  /** The report line for one recipient, given how its copy went. */
  function ReportOf(u: Recipient, d: Delivery): (line: ReportLine)
    ensures line.user == u
    ensures line.Delivered? <==> d.Ok?
    ensures line.Failed? ==> (line.reason.Some? <==> d.BadRequest?)
    ensures d.BadRequest? ==> line == Failed(u, Some(d.reason))
  {
    match d
    case Ok => Delivered(u)
    case BadRequest(reason) => Failed(u, Some(reason))
    case Other => Failed(u, None)
  }

  /** The report lines of a whole run, in snapshot order: one per recipient, none skipped. */
  function Reports(rs: seq<Recipient>, copy: int -> Delivery): (lines: seq<ReportLine>)
    ensures |lines| == |rs|
    ensures forall i :: 0 <= i < |rs| ==> lines[i] == ReportOf(rs[i], copy(rs[i].userId))
  {
    if rs == [] then []
    else Reports(rs[..|rs| - 1], copy) + [ReportOf(rs[|rs| - 1], copy(rs[|rs| - 1].userId))]
  }

  /** How many lines report a delivery. */
  function CountDelivered(lines: seq<ReportLine>): (n: nat)
    ensures n <= |lines|
  {
    if lines == [] then 0
    else CountDelivered(lines[..|lines| - 1]) + (if lines[|lines| - 1].Delivered? then 1 else 0)
  }

  /** How many lines report a failure. */
  function CountFailed(lines: seq<ReportLine>): (n: nat)
    ensures n <= |lines|
  {
    if lines == [] then 0
    else CountFailed(lines[..|lines| - 1]) + (if lines[|lines| - 1].Failed? then 1 else 0)
  }

  /** Every line is either a delivery or a failure, so the two counts add up to the number of lines. */
  lemma {:induction false} CountsPartition(lines: seq<ReportLine>)
    ensures CountDelivered(lines) + CountFailed(lines) == |lines|
  {
    if lines != [] {
      CountsPartition(lines[..|lines| - 1]);
    }
  }

  /** How the copy to each recipient went, in snapshot order. */
  function Outcomes(rs: seq<Recipient>, copy: int -> Delivery): (ds: seq<Delivery>)
    ensures |ds| == |rs|
    ensures forall i :: 0 <= i < |rs| ==> ds[i] == copy(rs[i].userId)
  {
    seq(|rs|, i requires 0 <= i < |rs| => copy(rs[i].userId))
  }

  /** The positions among the first `n` outcomes that are successes. */
  ghost function OkPositions(ds: seq<Delivery>, n: nat): set<int>
    requires n <= |ds|
  {
    set i | 0 <= i < n && ds[i].Ok?
  }

  /** One more outcome adds its own position when it is a success. */
  lemma OkPositionsStep(ds: seq<Delivery>, n: nat)
    requires 0 < n <= |ds|
    ensures |OkPositions(ds, n)| == |OkPositions(ds, n - 1)| + (if ds[n - 1].Ok? then 1 else 0)
  {
    var before, now := OkPositions(ds, n - 1), OkPositions(ds, n);
    if ds[n - 1].Ok? {
      assert now == before + {n - 1};
    } else {
      assert now == before;
    }
  }

  /** One more recipient adds one delivery when its copy returned normally. */
  lemma DeliveredStep(rs: seq<Recipient>, copy: int -> Delivery, n: nat)
    requires 0 < n <= |rs|
    ensures CountDelivered(Reports(rs[..n], copy)) == CountDelivered(Reports(rs[..n - 1], copy)) + (if Outcomes(rs, copy)[n - 1].Ok? then 1 else 0)
  {
    var lines := Reports(rs[..n], copy);
    assert rs[..n][..n - 1] == rs[..n - 1];
    assert lines[..n - 1] == Reports(rs[..n - 1], copy);
  }

  lemma {:induction false} DeliveredPrefix(rs: seq<Recipient>, copy: int -> Delivery, n: nat)
    requires n <= |rs|
    ensures CountDelivered(Reports(rs[..n], copy)) == |OkPositions(Outcomes(rs, copy), n)|
  {
    if n > 0 {
      DeliveredPrefix(rs, copy, n - 1);
      DeliveredStep(rs, copy, n);
      OkPositionsStep(Outcomes(rs, copy), n);
    } else {
      assert rs[..0] == [];
      assert OkPositions(Outcomes(rs, copy), 0) == {};
    }
  }

  /** The successes of a run are exactly the recipients whose copy returned normally. */
  lemma DeliveredAreOk(rs: seq<Recipient>, copy: int -> Delivery)
    ensures CountDelivered(Reports(rs, copy)) == |set i | 0 <= i < |rs| && Outcomes(rs, copy)[i].Ok?|
  {
    DeliveredPrefix(rs, copy, |rs|);
    assert rs[..|rs|] == rs;
  }

  /**
   * The loop of bot.py:182-205, with the report of each recipient sent
   * outside the part that counts it: every recipient is counted exactly once.
   */
  method Deliver(rs: seq<Recipient>, copy: int -> Delivery) returns (lines: seq<ReportLine>, success: nat, failed: nat)
    ensures lines == Reports(rs, copy)
    ensures success == CountDelivered(lines) && failed == CountFailed(lines)
    ensures success + failed == |rs|
  {
    lines, success, failed := [], 0, 0;
    for i := 0 to |rs|
      invariant lines == Reports(rs[..i], copy)
      invariant success == CountDelivered(lines) && failed == CountFailed(lines)
      invariant success + failed == i
    {
      var u := rs[i];
      var line: ReportLine;
      match copy(u.userId) {
        case Ok =>
          success := success + 1;
          line := Delivered(u);
        case BadRequest(reason) =>
          failed := failed + 1;
          line := Failed(u, Some(reason));
        case Other =>
          failed := failed + 1;
          line := Failed(u, None);
      }
      assert rs[..i + 1][..i] == rs[..i];
      lines := lines + [line];
      assert lines[..i] == Reports(rs[..i], copy);
    }
    assert rs[..|rs|] == rs;
  }

  // ---------------------------------------------------------------------
  // The loop as written: each report line is answered inside the `try`
  // that guards `copy_message`, so a failure to answer the admin is caught
  // by the handlers meant for the copy.

  /** The state of a run: lines the admin received, the two counters, and whether an exception escaped. */
  datatype Run = Run(sent: seq<ReportLine>, success: nat, failed: nat, raised: bool)

  /**
   * One pass of the loop body as written. `answer(line)` is the outcome of
   * sending that report line to the admin's chat. After a successful copy a
   * failed answer increments `failed` as well, and the admin is sent a
   * failure line; a failed answer of a failure line escapes the loop.
   */
  function StepAsWritten(run: Run, u: Recipient, copy: int -> Delivery, answer: ReportLine -> Delivery): (next: Run)
    ensures run.raised ==> next == run
    ensures !run.raised ==> next.success == run.success + (if copy(u.userId).Ok? then 1 else 0)
    ensures !run.raised && !copy(u.userId).Ok? ==> next.failed == run.failed + 1
    ensures !run.raised && copy(u.userId).Ok? ==> (next.failed == run.failed + 1 <==> !answer(Delivered(u)).Ok?)
    ensures !next.raised ==> |next.sent| == |run.sent| + 1
    ensures next.raised ==> next.sent == run.sent
  {
    if run.raised then run
    else if copy(u.userId).Ok? then
      var a := answer(Delivered(u));
      if a.Ok? then Run(run.sent + [Delivered(u)], run.success + 1, run.failed, false)
      else
        var line := Failed(u, if a.BadRequest? then Some(a.reason) else None);
        if answer(line).Ok? then Run(run.sent + [line], run.success + 1, run.failed + 1, false)
        else Run(run.sent, run.success + 1, run.failed + 1, true)
    else
      var line := ReportOf(u, copy(u.userId));
      if answer(line).Ok? then Run(run.sent + [line], run.success, run.failed + 1, false)
      else Run(run.sent, run.success, run.failed + 1, true)
  }

  /** The loop of bot.py:182-205 as written, over a snapshot. */
  function RunAsWritten(rs: seq<Recipient>, copy: int -> Delivery, answer: ReportLine -> Delivery): (run: Run)
    ensures run.success <= |rs| && |run.sent| <= |rs|
    ensures !run.raised ==> |rs| <= run.success + run.failed <= 2 * |rs|
  {
    if rs == [] then Run([], 0, 0, false)
    else StepAsWritten(RunAsWritten(rs[..|rs| - 1], copy, answer), rs[|rs| - 1], copy, answer)
  }

  /** When every report reaches the admin, the loop as written agrees with `Deliver`. */
  lemma {:induction false} AsWrittenAgreesWhenAnswered(rs: seq<Recipient>, copy: int -> Delivery, answer: ReportLine -> Delivery)
    requires forall line :: answer(line) == Ok
    ensures var lines := Reports(rs, copy);
      RunAsWritten(rs, copy, answer) == Run(lines, CountDelivered(lines), CountFailed(lines), false)
  {
    if rs != [] {
      var k := |rs| - 1;
      AsWrittenAgreesWhenAnswered(rs[..k], copy, answer);
      assert Reports(rs, copy)[..k] == Reports(rs[..k], copy);
    }
  }

  /**
   * A recipient who received the message but whose report line could not
   * be sent is counted as a success and as a failure: with one recipient,
   * the tally reads one delivered, one failed, one in total.
   */
  lemma ReportFailureCountsTwice(u: Recipient, copy: int -> Delivery, answer: ReportLine -> Delivery)
    requires copy(u.userId) == Ok
    requires answer(Delivered(u)) == Other && answer(Failed(u, None)) == Ok
    ensures RunAsWritten([u], copy, answer) == Run([Failed(u, None)], 1, 1, false)
    ensures RunAsWritten([u], copy, answer).success + RunAsWritten([u], copy, answer).failed != |[u]|
  {
    assert [u][..0] == [];
  }
}
