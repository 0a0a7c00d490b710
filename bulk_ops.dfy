/**
 * Running a bulk operation: `try_create_bulk_query` submits the mutation,
 * waiting 2 seconds after each "already in progress" refusal for at most
 * 600 seconds; `run_bulk_operation` then polls the operation every 2
 * seconds while it is CREATED, RUNNING or CANCELING and streams the JSONL
 * file once a poll reports COMPLETED with a download URL.
 *
 * Wall-clock time is an integer number of seconds: each submission attempt
 * reports how long the call took, and every wait adds exactly 2.
 */
module BulkOps {
  import opened Wrappers
  import opened Text
  import opened Json
  import opened Dicts
  import QueryText
  import Jsonl

  const TryStartTimeout := 600
  const ConflictWait := 2

  /** The refusal that means "another bulk query is running; try again". */
  const ConflictMessage := "A bulk query operation for this app and shop is already in progress"

  datatype Status = Canceled | Canceling | Completed | Created | Expired | Failed | Running

  /** The fields of a bulk-operation node that the loops read. */
  datatype BulkOperation = BulkOperation(id: string, status: Status, url: Option<string>)

  /** What one call of the mutation does. */
  datatype Submission =
    | Accepted(operation: Option<BulkOperation>) // a response; `None` when it or its bulk operation is empty
    | Refused(message: string)                    // ShopifyGetDataError with this message
    | Crashed                                     // any other exception

  /** A call and the seconds it took. */
  datatype Attempt = Attempt(result: Submission, seconds: nat)

  predicate IsConflict(a: Attempt) {
    a.result.Refused? && Contains(a.result.message, ConflictMessage)
  }

  /** How `try_create_bulk_query` ends, with the number of calls made and seconds waited. */
  datatype Submitted =
    | Submitted(operation: Option<BulkOperation>, calls: nat, waited: nat)
    | RefusedWith(message: string, calls: nat)
    | CrashedAfter(calls: nat)
    | TimedOut(message: string, calls: nat, waited: nat)

  function TimeoutMessage(gqlQuery: string): string {
    "[" + QueryText.ParseQueryName(gqlQuery) + "] Timed out trying to create bulk query after waiting for 600 seconds."
  }

  /**
   * The retry loop from call `i` on, at `clock` seconds after the start.
   * Every call before `i` was a conflict and cost at least the 2-second wait,
   * so at most 300 calls happen before the clock reaches 600.
   */
  function SubmitFrom(gqlQuery: string, attempts: seq<Attempt>, i: nat, clock: nat, waited: nat): Submitted
    requires |attempts| >= TryStartTimeout / ConflictWait && clock >= ConflictWait * i
    decreases TryStartTimeout - clock
  {
    if clock >= TryStartTimeout then TimedOut(TimeoutMessage(gqlQuery), i, waited)
    else
      var a := attempts[i];
      match a.result
      case Accepted(op) => Submitted(op, i + 1, waited)
      case Crashed => CrashedAfter(i + 1)
      case Refused(msg) =>
        if IsConflict(a) then SubmitFrom(gqlQuery, attempts, i + 1, clock + a.seconds + ConflictWait, waited + ConflictWait)
        else RefusedWith(msg, i + 1)
  }

  function Submit(gqlQuery: string, attempts: seq<Attempt>): Submitted
    requires |attempts| >= TryStartTimeout / ConflictWait
  {
    SubmitFrom(gqlQuery, attempts, 0, 0, 0)
  }

  /**
   * `try_create_bulk_query`. The query sent on every call is the same
   * `inject_variables` result, returned as `sent`.
   */
  method TryCreateBulkQuery(gqlQuery: string, variables: seq<(string, Json)>, attempts: seq<Attempt>)
    returns (r: Submitted, sent: string)
    requires |attempts| >= TryStartTimeout / ConflictWait
    ensures r == Submit(gqlQuery, attempts)
    ensures sent == QueryText.Injected(gqlQuery, variables)
  {
    var clock: nat, waited: nat, i: nat := 0, 0, 0;
    sent := QueryText.InjectVariables(gqlQuery, variables);
    r := TimedOut(TimeoutMessage(gqlQuery), 0, 0);
    var done := false;
    while !done && clock < TryStartTimeout
      invariant clock >= ConflictWait * i
      invariant !done ==> SubmitFrom(gqlQuery, attempts, i, clock, waited) == Submit(gqlQuery, attempts)
      invariant done ==> r == Submit(gqlQuery, attempts)
      decreases TryStartTimeout - clock, if done then 0 else 1
    {
      var a := attempts[i];
      match a.result {
        case Accepted(op) =>
          r, done := Submitted(op, i + 1, waited), true;
        case Crashed =>
          r, done := CrashedAfter(i + 1), true;
        case Refused(msg) =>
          if Contains(msg, ConflictMessage) {
            clock, waited, i := clock + a.seconds + ConflictWait, waited + ConflictWait, i + 1;
          } else {
            r, done := RefusedWith(msg, i + 1), true;
          }
      }
    }
    if !done {
      r := TimedOut(TimeoutMessage(gqlQuery), i, waited);
    }
  }

  /** Every run makes at most 300 calls. */
  lemma {:induction false} CallsBounded(gqlQuery: string, attempts: seq<Attempt>, i: nat, clock: nat, waited: nat)
    requires |attempts| >= TryStartTimeout / ConflictWait && clock >= ConflictWait * i
    requires i <= TryStartTimeout / ConflictWait
    ensures var r := SubmitFrom(gqlQuery, attempts, i, clock, waited);
      i <= r.calls <= TryStartTimeout / ConflictWait
    decreases TryStartTimeout - clock
  {
    if clock < TryStartTimeout {
      var a := attempts[i];
      if IsConflict(a) {
        CallsBounded(gqlQuery, attempts, i + 1, clock + a.seconds + ConflictWait, waited + ConflictWait);
      }
    }
  }

  /** A timeout means every call was refused as a conflict, and 2 seconds were waited after each. */
  lemma {:induction false} TimeoutOnlyAfterConflicts(gqlQuery: string, attempts: seq<Attempt>, i: nat, clock: nat, waited: nat)
    requires |attempts| >= TryStartTimeout / ConflictWait && clock >= ConflictWait * i
    requires i <= TryStartTimeout / ConflictWait
    ensures var r := SubmitFrom(gqlQuery, attempts, i, clock, waited);
      r.TimedOut? ==>
        i <= r.calls <= |attempts| && r.waited == waited + ConflictWait * (r.calls - i) &&
        forall j :: i <= j < r.calls ==> IsConflict(attempts[j])
    decreases TryStartTimeout - clock
  {
    if clock < TryStartTimeout {
      var a := attempts[i];
      if IsConflict(a) {
        TimeoutOnlyAfterConflicts(gqlQuery, attempts, i + 1, clock + a.seconds + ConflictWait, waited + ConflictWait);
      }
    }
  }

  /**
   * The first call that is not a conflict decides the outcome, provided the
   * conflicts before it (with their waits) took less than 600 seconds.
   */
  lemma {:induction false} FirstNonConflictDecides(gqlQuery: string, attempts: seq<Attempt>, k: nat)
    requires |attempts| >= TryStartTimeout / ConflictWait && k < |attempts|
    requires forall j :: 0 <= j < k ==> IsConflict(attempts[j])
    requires !IsConflict(attempts[k])
    requires Elapsed(attempts, k) < TryStartTimeout
    ensures Submit(gqlQuery, attempts) ==
      match attempts[k].result
      case Accepted(op) => Submitted(op, k + 1, ConflictWait * k)
      case Crashed => CrashedAfter(k + 1)
      case Refused(msg) => RefusedWith(msg, k + 1)
  {
    DecidedFrom(gqlQuery, attempts, 0, k);
  }

  /** Seconds on the clock after the first `k` calls, each followed by the 2-second wait. */
  function Elapsed(attempts: seq<Attempt>, k: nat): nat
    requires k <= |attempts|
  {
    if k == 0 then 0 else Elapsed(attempts, k - 1) + attempts[k - 1].seconds + ConflictWait
  }

  lemma {:induction false} ElapsedGrows(attempts: seq<Attempt>, i: nat, k: nat)
    requires i <= k <= |attempts|
    ensures Elapsed(attempts, k) >= Elapsed(attempts, i) + ConflictWait * (k - i)
    decreases k - i
  {
    if i < k {
      ElapsedGrows(attempts, i, k - 1);
    }
  }

  lemma {:induction false} DecidedFrom(gqlQuery: string, attempts: seq<Attempt>, i: nat, k: nat)
    requires |attempts| >= TryStartTimeout / ConflictWait && i <= k < |attempts|
    requires forall j :: i <= j < k ==> IsConflict(attempts[j])
    requires !IsConflict(attempts[k])
    requires Elapsed(attempts, k) < TryStartTimeout
    ensures Elapsed(attempts, i) >= ConflictWait * i
    ensures SubmitFrom(gqlQuery, attempts, i, Elapsed(attempts, i), ConflictWait * i) ==
      match attempts[k].result
      case Accepted(op) => Submitted(op, k + 1, ConflictWait * k)
      case Crashed => CrashedAfter(k + 1)
      case Refused(msg) => RefusedWith(msg, k + 1)
    decreases k - i
  {
    ElapsedGrows(attempts, 0, i);
    ElapsedGrows(attempts, i, k);
    if i < k {
      DecidedFrom(gqlQuery, attempts, i + 1, k);
    }
  }

  /** With instantaneous calls, 300 conflicts in a row time out after exactly 300 calls and 600 seconds of waiting. */
  lemma {:induction false} ConflictsUntilTimeout(gqlQuery: string, attempts: seq<Attempt>, i: nat)
    requires |attempts| >= TryStartTimeout / ConflictWait && i <= TryStartTimeout / ConflictWait
    requires forall j :: 0 <= j < TryStartTimeout / ConflictWait ==> IsConflict(attempts[j]) && attempts[j].seconds == 0
    ensures SubmitFrom(gqlQuery, attempts, i, ConflictWait * i, ConflictWait * i) ==
      TimedOut(TimeoutMessage(gqlQuery), TryStartTimeout / ConflictWait, TryStartTimeout)
    decreases TryStartTimeout / ConflictWait - i
  {
    if i < TryStartTimeout / ConflictWait {
      ConflictsUntilTimeout(gqlQuery, attempts, i + 1);
    }
  }

  // ---------------------------------------------------------------------
  // The poll loop
  // ---------------------------------------------------------------------

  predicate IsRunning(s: Status) {
    s == Created || s == Running || s == Canceling
  }

  /** The URL is truthy. */
  predicate HasUrl(op: BulkOperation) {
    op.url.Some? && op.url.value != ""
  }

  /** What the status check returns: a bulk-operation node, or nothing (the logging line then raises AttributeError). */
  datatype Poll = Polled(op: BulkOperation) | NoNode

  /** How the poll loop ends after `polls` status checks. */
  datatype Watched =
    | Download(url: string, polls: nat)   // COMPLETED with a URL: the file is streamed, then the loop ends
    | Ended(status: Status, polls: nat)   // left the running states without a download
    | PollFailed(polls: nat)              // a status check returned nothing
    | StillRunning                        // the checks given ran out while the operation was running

  function WatchFrom(status: Status, polls: seq<Poll>, i: nat): Watched
    requires i <= |polls|
    decreases |polls| - i
  {
    if !IsRunning(status) then Ended(status, i)
    else if i == |polls| then StillRunning
    else match polls[i]
      case NoNode => PollFailed(i + 1)
      case Polled(op) =>
        if op.status == Completed && HasUrl(op) then Download(op.url.value, i + 1)
        else WatchFrom(op.status, polls, i + 1)
  }

  /** The `while status in [...]` loop of `run_bulk_operation`. */
  method WatchOperation(status: Status, polls: seq<Poll>) returns (w: Watched)
    ensures w == WatchFrom(status, polls, 0)
  {
    var current := status;
    var i := 0;
    w := StillRunning;
    var done := false;
    while !done && IsRunning(current)
      invariant 0 <= i <= |polls|
      invariant !done ==> WatchFrom(current, polls, i) == WatchFrom(status, polls, 0)
      invariant done ==> w == WatchFrom(status, polls, 0)
      decreases |polls| - i, if done then 0 else 1
    {
      assert WatchFrom(current, polls, i) == WatchFrom(status, polls, 0);
      if i == |polls| {
        w, done := StillRunning, true;
      } else {
        match polls[i] {
          case NoNode =>
            w, done := PollFailed(i + 1), true;
          case Polled(op) =>
            assert WatchFrom(current, polls, i) ==
              if op.status == Completed && HasUrl(op) then Download(op.url.value, i + 1)
              else WatchFrom(op.status, polls, i + 1);
            current := op.status;
            if current == Completed && HasUrl(op) {
              w, done := Download(op.url.value, i + 1), true;
            }
        }
        i := i + 1;
      }
    }
    if !done {
      w := Ended(current, i);
    }
  }

  /** An operation that is not running when created is never polled and never downloaded, even if COMPLETED. */
  lemma NotRunningIsNotPolled(status: Status, polls: seq<Poll>)
    requires !IsRunning(status)
    ensures WatchFrom(status, polls, 0) == Ended(status, 0)
  {
  }

  /**
   * A download happens on the first check that reports COMPLETED with a URL,
   * and every check before it reported a running status.
   */
  lemma {:induction false} DownloadOnlyWhenCompleted(status: Status, polls: seq<Poll>, i: nat)
    requires i <= |polls|
    ensures var w := WatchFrom(status, polls, i);
      w.Download? ==>
        i < w.polls <= |polls| && IsRunning(status) &&
        polls[w.polls - 1].Polled? && polls[w.polls - 1].op.status == Completed &&
        polls[w.polls - 1].op.url == Some(w.url) && w.url != "" &&
        forall j :: i <= j < w.polls - 1 ==>
          polls[j].Polled? && IsRunning(polls[j].op.status) && !(polls[j].op.status == Completed && HasUrl(polls[j].op))
    decreases |polls| - i
  {
    if IsRunning(status) && i < |polls| && polls[i].Polled? {
      DownloadOnlyWhenCompleted(polls[i].op.status, polls, i + 1);
    }
  }

  /** The loop ends without a download only in a status that is not running. */
  lemma {:induction false} EndedNotRunning(status: Status, polls: seq<Poll>, i: nat)
    requires i <= |polls|
    ensures var w := WatchFrom(status, polls, i); w.Ended? ==> !IsRunning(w.status) && i <= w.polls <= |polls|
    decreases |polls| - i
  {
    if IsRunning(status) && i < |polls| && polls[i].Polled? {
      EndedNotRunning(polls[i].op.status, polls, i + 1);
    }
  }

  // ---------------------------------------------------------------------
  // run_bulk_operation
  // ---------------------------------------------------------------------

  datatype RunOutcome =
    | NotSubmitted(submitted: Submitted) // refused, crashed or timed out
    | NoOperation                        // the response has no bulk operation
    | NotDownloaded(watched: Watched)    // the poll loop ended without a download
    | Streamed(error: Option<Jsonl.JsonlError>)

  /** What `run_bulk_operation` yields, and how it ends; `file` is the content at the download URL. */
  function Run(gqlQuery: string, attempts: seq<Attempt>, polls: seq<Poll>,
               shape: Jsonl.Shape, classOf: map<string, string>, file: seq<Fields>): (seq<Jsonl.Record>, RunOutcome)
    requires |attempts| >= TryStartTimeout / ConflictWait
  {
    var s := Submit(gqlQuery, attempts);
    if !s.Submitted? then ([], NotSubmitted(s))
    else if s.operation.None? then ([], NoOperation)
    else
      var w := WatchFrom(s.operation.value.status, polls, 0);
      if !w.Download? then ([], NotDownloaded(w))
      else
        var a := Jsonl.Assemble(Some(shape), classOf, file);
        (a.out, Streamed(a.err))
  }

  /** `run_bulk_operation`, with the result shape and class table passed on to `get_jsonl`. */
  method RunBulkOperation(gqlQuery: string, variables: seq<(string, Json)>, attempts: seq<Attempt>,
                          polls: seq<Poll>, shape: Jsonl.Shape, classOf: map<string, string>, file: seq<Fields>)
    returns (records: seq<Jsonl.Record>, outcome: RunOutcome)
    requires |attempts| >= TryStartTimeout / ConflictWait
    ensures (records, outcome) == Run(gqlQuery, attempts, polls, shape, classOf, file)
  {
    var s, _ := TryCreateBulkQuery(gqlQuery, variables, attempts);
    records := [];
    if !s.Submitted? {
      outcome := NotSubmitted(s);
    } else if s.operation.None? {
      outcome := NoOperation;
    } else {
      var w := WatchOperation(s.operation.value.status, polls);
      if !w.Download? {
        outcome := NotDownloaded(w);
      } else {
        var err;
        records, err := Jsonl.GetJsonl(shape, classOf, file);
        outcome := Streamed(err);
      }
    }
  }

  /** Objects are yielded only after a successful submission and a poll that reported COMPLETED with a URL. */
  lemma YieldsOnlyAfterCompletion(gqlQuery: string, attempts: seq<Attempt>, polls: seq<Poll>,
                                  shape: Jsonl.Shape, classOf: map<string, string>, file: seq<Fields>)
    requires |attempts| >= TryStartTimeout / ConflictWait
    requires |Run(gqlQuery, attempts, polls, shape, classOf, file).0| > 0
    ensures Submit(gqlQuery, attempts).Submitted? && Submit(gqlQuery, attempts).operation.Some?
    ensures var w := WatchFrom(Submit(gqlQuery, attempts).operation.value.status, polls, 0);
      w.Download? && 0 < w.polls <= |polls| && polls[w.polls - 1].Polled? && polls[w.polls - 1].op.status == Completed
  {
    var w := WatchFrom(Submit(gqlQuery, attempts).operation.value.status, polls, 0);
    DownloadOnlyWhenCompleted(Submit(gqlQuery, attempts).operation.value.status, polls, 0);
  }
}
