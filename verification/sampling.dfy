/**
 * The sampling loop of `main`: five iterations, each asking the client for a
 * calibration (G32), the kinematics (M665) and the endstops (M666), appending
 * each record to its list as soon as it arrives, and saving all three lists
 * at the end of the iteration. An `UnexpectedAnswerError` ends the loop at
 * once; the lists in memory may then be one step ahead of the saved copy.
 *
 * The client is an oracle: for iteration `i` it gives each command's decoded
 * record or the error its parser raised. The history read from the file at
 * start-up is a parameter, and saving is a copy of the three lists.
 */
module Sampling {
  import opened Results
  import opened Replies
  import opened Patterns

  /** What the client answers in iteration `i` (counted from 1, as `range(1, 6)` does). */
  datatype Client = Client(
    calibrate: nat -> Result<Calibration, UnexpectedAnswer>,
    kinematics: nat -> Result<Kinematics, UnexpectedAnswer>,
    endstops: nat -> Result<Endstops, UnexpectedAnswer>)

  /** The three G-codes the loop sends. */
  datatype Command = G32 | M665 | M666

  /**
   * The client of `Kossel`: `g32()`, `m665()` and `m666()` each parse the
   * printer's reply to their command. `reply(c, i)` is the text `sendgcode`
   * returns for `c` in iteration `i`.
   */
  function TextClient(reply: (Command, nat) -> string): (client: Client)
    ensures forall i: nat :: client.calibrate(i) == ParseG32(reply(G32, i))
    ensures forall i: nat :: client.kinematics(i) == ParseM665(reply(M665, i))
    ensures forall i: nat :: client.endstops(i) == ParseM666(reply(M666, i))
  {
    Client((i: nat) => ParseG32(reply(G32, i)), (i: nat) => ParseM665(reply(M665, i)),
           (i: nat) => ParseM666(reply(M666, i)))
  }

  /**
   * The text client answers iteration `i` exactly when each reply begins with
   * its line; otherwise the error is that of the first reply that does not,
   * and it carries that reply.
   */
  lemma TextClientAnswers(reply: (Command, nat) -> string, i: nat)
    ensures Answers(TextClient(reply), i) <==>
              && StartsWithCalibration(reply(G32, i))
              && StartsWithKinematics(reply(M665, i))
              && StartsWithEndstops(reply(M666, i))
    ensures !StartsWithCalibration(reply(G32, i)) ==>
              FirstError(TextClient(reply), i)
              == UnexpectedAnswer(reply(G32, i), MismatchMessage(reply(G32, i), Source(G32Pattern)))
    ensures StartsWithCalibration(reply(G32, i)) && !StartsWithKinematics(reply(M665, i)) ==>
              FirstError(TextClient(reply), i)
              == UnexpectedAnswer(reply(M665, i), MismatchMessage(reply(M665, i), Source(M665Pattern)))
    ensures StartsWithCalibration(reply(G32, i)) && StartsWithKinematics(reply(M665, i))
            && !StartsWithEndstops(reply(M666, i)) ==>
              FirstError(TextClient(reply), i)
              == UnexpectedAnswer(reply(M666, i), MismatchMessage(reply(M666, i), Source(M666Pattern)))
  {
    G32Accepts(reply(G32, i));
    M665Accepts(reply(M665, i));
    M666Accepts(reply(M666, i));
  }

  /** The three lists `tr32`, `tr665`, `tr666`, in sampling order. */
  datatype History = History(calibrations: seq<Calibration>, kinematics: seq<Kinematics>, endstops: seq<Endstops>)

  /** How one iteration ends: all three records appended, or an error after appending some of them. */
  datatype Step = Done(lists: History) | Failed(lists: History, error: UnexpectedAnswer)

  /**
   * How a run ends. `Finished` holds the lists, which equal the saved copy;
   * `Aborted` holds the lists in memory, the last saved copy and the error.
   */
  datatype Run = Finished(history: History) | Aborted(lists: History, saved: History, error: UnexpectedAnswer)

  /** `range(1, 6)`: the loop runs five iterations. */
  const Iterations: nat := 5

  /** All three commands of iteration `i` are answered. */
  predicate Answers(client: Client, i: nat) {
    client.calibrate(i).Success? && client.kinematics(i).Success? && client.endstops(i).Success?
  }

  /** The error of the first command of iteration `i` that is not answered. */
  function FirstError(client: Client, i: nat): UnexpectedAnswer
    requires !Answers(client, i)
  {
    if client.calibrate(i).Failure? then client.calibrate(i).error
    else if client.kinematics(i).Failure? then client.kinematics(i).error
    else client.endstops(i).error
  }

  /** Each list of `h` extends the same list of `h0` by exactly the given number of records. */
  predicate GrownBy(h0: History, h: History, c: nat, k: nat, e: nat) {
    && |h.calibrations| == |h0.calibrations| + c && h0.calibrations <= h.calibrations
    && |h.kinematics| == |h0.kinematics| + k && h0.kinematics <= h.kinematics
    && |h.endstops| == |h0.endstops| + e && h0.endstops <= h.endstops
  }

  /**
   * One iteration of the loop body. It completes exactly when all three
   * commands answer, appending one record per list; otherwise it stops at the
   * first error, having appended exactly the records of the commands before it.
   */
  function Iteration(lists: History, i: nat, client: Client): (st: Step)
    ensures st.Done? <==> Answers(client, i)
    ensures st.Done? ==>
              && GrownBy(lists, st.lists, 1, 1, 1)
              && st.lists.calibrations[|lists.calibrations|] == client.calibrate(i).value
              && st.lists.kinematics[|lists.kinematics|] == client.kinematics(i).value
              && st.lists.endstops[|lists.endstops|] == client.endstops(i).value
    ensures st.Failed? ==> st.error == FirstError(client, i)
    ensures client.calibrate(i).Failure? ==> st.Failed? && GrownBy(lists, st.lists, 0, 0, 0)
    ensures client.calibrate(i).Success? && client.kinematics(i).Failure? ==>
              && st.Failed?
              && GrownBy(lists, st.lists, 1, 0, 0)
              && st.lists.calibrations[|lists.calibrations|] == client.calibrate(i).value
    ensures client.calibrate(i).Success? && client.kinematics(i).Success? && client.endstops(i).Failure? ==>
              && st.Failed?
              && GrownBy(lists, st.lists, 1, 1, 0)
              && st.lists.calibrations[|lists.calibrations|] == client.calibrate(i).value
              && st.lists.kinematics[|lists.kinematics|] == client.kinematics(i).value
  {
    match client.calibrate(i)
    case Failure(e) => Failed(lists, e)
    case Success(r32) =>
      var l1 := lists.(calibrations := lists.calibrations + [r32]);
      match client.kinematics(i)
      case Failure(e) => Failed(l1, e)
      case Success(r665) =>
        var l2 := l1.(kinematics := l1.kinematics + [r665]);
        match client.endstops(i)
        case Failure(e) => Failed(l2, e)
        case Success(r666) => Done(l2.(endstops := l2.endstops + [r666]))
  }

  /** The first `n` iterations, starting from the history read at start-up. */
  function RunFor(initial: History, n: nat, client: Client): Run {
    if n == 0 then Finished(initial)
    else
      match RunFor(initial, n - 1, client)
      case Aborted(lists, saved, e) => Aborted(lists, saved, e)
      case Finished(h) =>
        match Iteration(h, n, client)
        case Done(h') => Finished(h')
        case Failed(lists, e) => Aborted(lists, h, e)
  }

  /**
   * After `n` completed iterations each list has grown by `n`, and its
   * `j`-th new record is the answer of iteration `j + 1`.
   */
  lemma {:induction false} FinishedGrowth(initial: History, n: nat, client: Client)
    requires RunFor(initial, n, client).Finished?
    ensures GrownBy(initial, RunFor(initial, n, client).history, n, n, n)
    ensures forall i :: 1 <= i <= n ==> Answers(client, i)
    ensures forall i :: 1 <= i <= n ==>
              && Answers(client, i)
              && RunFor(initial, n, client).history.calibrations[|initial.calibrations| + i - 1]
                 == client.calibrate(i).value
              && RunFor(initial, n, client).history.kinematics[|initial.kinematics| + i - 1]
                 == client.kinematics(i).value
              && RunFor(initial, n, client).history.endstops[|initial.endstops| + i - 1]
                 == client.endstops(i).value
  {
    if n > 0 {
      FinishedGrowth(initial, n - 1, client);
      var h := RunFor(initial, n - 1, client).history;
      assert Iteration(h, n, client).Done?;
    }
  }

  /**
   * An aborted run failed in some iteration `k + 1`: the saved copy is the
   * history after the `k` iterations before it, and the lists in memory are
   * that iteration's partial appends.
   */
  lemma {:induction false} AbortedSnapshot(initial: History, n: nat, client: Client)
    requires RunFor(initial, n, client).Aborted?
    ensures exists k ::
              && 0 <= k < n
              && RunFor(initial, k, client) == Finished(RunFor(initial, n, client).saved)
              && Iteration(RunFor(initial, n, client).saved, k + 1, client)
                 == Failed(RunFor(initial, n, client).lists, RunFor(initial, n, client).error)
  {
    var r := RunFor(initial, n, client);
    if RunFor(initial, n - 1, client).Aborted? {
      AbortedSnapshot(initial, n - 1, client);
      assert RunFor(initial, n - 1, client) == r;
    } else {
      assert RunFor(initial, n - 1, client) == Finished(r.saved);
    }
  }

  /** An aborted run stays aborted: later iterations never run. */
  lemma {:induction false} AbortedIsFinal(initial: History, k: nat, n: nat, client: Client)
    requires k <= n && RunFor(initial, k, client).Aborted?
    ensures RunFor(initial, n, client) == RunFor(initial, k, client)
    decreases n - k
  {
    if k < n {
      AbortedIsFinal(initial, k, n - 1, client);
    }
  }

  /** A client that always answers lets every iteration complete. */
  lemma {:induction false} AnsweringClientFinishes(initial: History, n: nat, client: Client)
    requires forall i :: 1 <= i <= n ==> Answers(client, i)
    ensures RunFor(initial, n, client).Finished?
  {
    if n > 0 {
      AnsweringClientFinishes(initial, n - 1, client);
    }
  }

  /** A client that always gives the same three records fills the lists with copies of them. */
  lemma {:induction false} SteadyClientRun(initial: History, n: nat, client: Client, c: Calibration, k: Kinematics, e: Endstops)
    requires forall i: nat :: client.calibrate(i) == Success(c)
    requires forall i: nat :: client.kinematics(i) == Success(k)
    requires forall i: nat :: client.endstops(i) == Success(e)
    ensures RunFor(initial, n, client).Finished?
    ensures GrownBy(initial, RunFor(initial, n, client).history, n, n, n)
    ensures forall j :: |initial.calibrations| <= j < |initial.calibrations| + n ==>
              RunFor(initial, n, client).history.calibrations[j] == c
    ensures forall j :: |initial.kinematics| <= j < |initial.kinematics| + n ==>
              RunFor(initial, n, client).history.kinematics[j] == k
    ensures forall j :: |initial.endstops| <= j < |initial.endstops| + n ==>
              RunFor(initial, n, client).history.endstops[j] == e
  {
    AnsweringClientFinishes(initial, n, client);
    FinishedGrowth(initial, n, client);
    var h := RunFor(initial, n, client).history;
    forall j | |initial.calibrations| <= j < |initial.calibrations| + n
      ensures h.calibrations[j] == c
    {
      var i := j - |initial.calibrations| + 1;
      assert h.calibrations[|initial.calibrations| + i - 1] == client.calibrate(i).value;
    }
    forall j | |initial.kinematics| <= j < |initial.kinematics| + n
      ensures h.kinematics[j] == k
    {
      var i := j - |initial.kinematics| + 1;
      assert h.kinematics[|initial.kinematics| + i - 1] == client.kinematics(i).value;
    }
    forall j | |initial.endstops| <= j < |initial.endstops| + n
      ensures h.endstops[j] == e
    {
      var i := j - |initial.endstops| + 1;
      assert h.endstops[|initial.endstops| + i - 1] == client.endstops(i).value;
    }
  }

  /**
   * The loop of `main`, statement by statement: append each record as it
   * arrives, save a copy of the three lists after each iteration, stop at the
   * first error. It computes `RunFor(initial, Iterations, client)`.
   */
  method SamplingLoop(initial: History, client: Client) returns (outcome: Run)
    ensures outcome == RunFor(initial, Iterations, client)
    ensures outcome.Finished? ==> GrownBy(initial, outcome.history, Iterations, Iterations, Iterations)
  {
    var tr32, tr665, tr666 := initial.calibrations, initial.kinematics, initial.endstops;
    var saved := initial;
    var i := 1;
    while i < Iterations + 1
      invariant 1 <= i <= Iterations + 1
      invariant saved == History(tr32, tr665, tr666)
      invariant RunFor(initial, i - 1, client) == Finished(saved)
    {
      var r32 := client.calibrate(i);
      if r32.Failure? {
        outcome := Aborted(History(tr32, tr665, tr666), saved, r32.error);
        AbortedIsFinal(initial, i, Iterations, client);
        return;
      }
      tr32 := tr32 + [r32.value];
      var r665 := client.kinematics(i);
      if r665.Failure? {
        outcome := Aborted(History(tr32, tr665, tr666), saved, r665.error);
        AbortedIsFinal(initial, i, Iterations, client);
        return;
      }
      tr665 := tr665 + [r665.value];
      var r666 := client.endstops(i);
      if r666.Failure? {
        outcome := Aborted(History(tr32, tr665, tr666), saved, r666.error);
        AbortedIsFinal(initial, i, Iterations, client);
        return;
      }
      tr666 := tr666 + [r666.value];
      saved := History(tr32, tr665, tr666);
      i := i + 1;
    }
    outcome := Finished(saved);
    FinishedGrowth(initial, Iterations, client);
  }
}
