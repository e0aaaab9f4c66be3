/**
 Submitting a completion with retries and cooperative cancellation. Replies and what
 the cancel token shows at each check are oracles indexed by the attempt.
 */
module CompletionRetry {
  import opened Basics

  /** A reply: a 2xx body with its decoded content if it decodes, an HTTP error status, or another failure. */
  datatype Reply = Body(content: Option<string>) | HttpError(status: nat) | Failure(code: nat)

  datatype Note = FailFast(attempt: nat) | ModelLoading | AsReceived

  datatype TransportError =
    | EncodeRequest
    | Http(status: nat, note: Note)
    | Other(code: nat)
    | DecodeResponse
    | EmptyCompletion
    | Cancelled

  type Cancel = Option<nat -> bool>

  predicate CancelledAt(cancel: Cancel, k: nat) {
    cancel.Some? && cancel.value(k)
  }

  /** The reply settles the call: a body, or a client error. */
  predicate Decisive(r: Reply) {
    r.Body? || (r.HttpError? && 400 <= r.status < 500)
  }

  predicate StopsAt(reply: nat -> Reply, cancel: Cancel, k: nat) {
    CancelledAt(cancel, k) || Decisive(reply(k))
  }

  /** The first attempt from `k` on, up to `max`, that settles the call. */
  function FirstStop(reply: nat -> Reply, cancel: Cancel, max: nat, k: nat): (r: Option<nat>)
    requires k <= max + 1
    ensures r.Some? ==> k <= r.value <= max && StopsAt(reply, cancel, r.value)
    ensures forall j: nat :: k <= j <= max && (r.Some? ==> j < r.value) ==> !StopsAt(reply, cancel, j)
    decreases max + 1 - k
  {
    if k == max + 1 then None
    else if StopsAt(reply, cancel, k) then Some(k)
    else FirstStop(reply, cancel, max, k + 1)
  }

  function Judgement(r: Reply, attempt: nat): Result<string, TransportError>
    requires Decisive(r)
  {
    match r
    case Body(None) => Err(DecodeResponse)
    case Body(Some(content)) => if content == "" then Err(EmptyCompletion) else Ok(content)
    case HttpError(status) => Err(Http(status, FailFast(attempt)))
  }

  /** The error a call that runs out of attempts reports. */
  function LastError(r: Reply): TransportError
    requires !Decisive(r)
  {
    match r
    case HttpError(status) => Http(status, AsReceived)
    case Failure(code) => Other(code)
  }

  /** Milliseconds slept after a reply that does not settle the call. */
  function Pause(r: Reply): nat {
    if r == HttpError(503) then 1000 else 500
  }

  function Pauses(reply: nat -> Reply, n: nat): seq<nat> {
    seq(n, i requires 0 <= i < n => Pause(reply(i)))
  }

  datatype Outcome = Outcome(result: Result<string, TransportError>, posts: nat, sleeps: seq<nat>)

  /** The first decisive reply or observed cancellation, else the last attempt's error. */
  function Expected(reply: nat -> Reply, cancel: Cancel, maxRetries: nat): Outcome {
    match FirstStop(reply, cancel, maxRetries, 0)
    case Some(k) =>
      if CancelledAt(cancel, k) then Outcome(Err(Cancelled), k, Pauses(reply, k))
      else Outcome(Judgement(reply(k), k), k + 1, Pauses(reply, k))
    case None =>
      assert !StopsAt(reply, cancel, maxRetries);
      Outcome(Err(LastError(reply(maxRetries))), maxRetries + 1, Pauses(reply, maxRetries))
  }

  method CompleteWithRetry(encodes: bool, reply: nat -> Reply, cancel: Cancel, maxRetries: nat)
    returns (r: Result<string, TransportError>, posts: nat, sleeps: seq<nat>)
    ensures Outcome(r, posts, sleeps) == if encodes then Expected(reply, cancel, maxRetries) else Outcome(Err(EncodeRequest), 0, [])
  {
    posts, sleeps := 0, [];
    if !encodes {
      return Err(EncodeRequest), posts, sleeps;
    }
    var lastErr: Option<TransportError> := None;
    var attempt := 0;
    while attempt <= maxRetries
      invariant 0 <= attempt <= maxRetries + 1 && posts == attempt
      invariant FirstStop(reply, cancel, maxRetries, 0) == FirstStop(reply, cancel, maxRetries, attempt)
      invariant sleeps == Pauses(reply, if attempt <= maxRetries then attempt else maxRetries)
      invariant attempt == maxRetries + 1 ==> !Decisive(reply(maxRetries)) && lastErr == Some(LastError(reply(maxRetries)))
    {
      if cancel.Some? && cancel.value(attempt) {
        return Err(Cancelled), posts, sleeps;
      }
      posts := posts + 1;
      match reply(attempt) {
        case Body(None) =>
          return Err(DecodeResponse), posts, sleeps;
        case Body(Some(content)) =>
          return if content == "" then Err(EmptyCompletion) else Ok(content), posts, sleeps;
        case HttpError(status) =>
          if 400 <= status < 500 {
            return Err(Http(status, FailFast(attempt))), posts, sleeps;
          } else if status == 503 && attempt < maxRetries {
            lastErr := Some(Http(503, ModelLoading));
            sleeps := sleeps + [1000];
          } else {
            lastErr := Some(Http(status, AsReceived));
            if attempt < maxRetries {
              sleeps := sleeps + [500];
            }
          }
        case Failure(code) =>
          lastErr := Some(Other(code));
          if attempt < maxRetries {
            sleeps := sleeps + [500];
          }
      }
      attempt := attempt + 1;
    }
    r := Err(match lastErr { case Some(e) => e case None => EmptyCompletion });
  }

  // ----- Laws -----

  /** No attempt is posted at or after one whose check sees the cancellation, and never more than `maxRetries + 1`. */
  lemma PostsAreBounded(reply: nat -> Reply, cancel: Cancel, maxRetries: nat)
    ensures Expected(reply, cancel, maxRetries).posts <= maxRetries + 1
    ensures forall k: nat :: CancelledAt(cancel, k) ==> Expected(reply, cancel, maxRetries).posts <= k || k > maxRetries
  {
    var stop := FirstStop(reply, cancel, maxRetries, 0);
    forall k: nat | CancelledAt(cancel, k) ensures Expected(reply, cancel, maxRetries).posts <= k || k > maxRetries {
      assert StopsAt(reply, cancel, k);
    }
  }

  /** No reply before `k` settles the call and no check before `k` sees it cancelled. */
  ghost predicate Undecided(reply: nat -> Reply, cancel: Cancel, k: nat) {
    forall j: nat :: j < k ==> !StopsAt(reply, cancel, j)
  }

  lemma FirstStopIs(reply: nat -> Reply, cancel: Cancel, maxRetries: nat, k: nat)
    ensures FirstStop(reply, cancel, maxRetries, 0) == Some(k)
       <==> k <= maxRetries && StopsAt(reply, cancel, k) && Undecided(reply, cancel, k)
  {
    hide StopsAt;
  }

  /** The call is cancelled exactly when some check sees the cancellation before any reply settles it. */
  lemma CancelledIff(reply: nat -> Reply, cancel: Cancel, maxRetries: nat)
    ensures Expected(reply, cancel, maxRetries).result == Err(Cancelled)
       <==> exists c: nat :: c <= maxRetries && CancelledAt(cancel, c) && Undecided(reply, cancel, c)
  {
    hide CancelledAt, FirstStop;
    var stop := FirstStop(reply, cancel, maxRetries, 0);
    if stop.Some? {
      FirstStopIs(reply, cancel, maxRetries, stop.value);
    }
    if c: nat :| c <= maxRetries && CancelledAt(cancel, c) && Undecided(reply, cancel, c) {
      FirstStopIs(reply, cancel, maxRetries, c);
    }
  }

  /** The empty-completion error always comes from an empty reply, never from the fallback of an unset last error. */
  lemma FallbackIsUnreachable(reply: nat -> Reply, cancel: Cancel, maxRetries: nat)
    requires Expected(reply, cancel, maxRetries).result == Err(EmptyCompletion)
    ensures exists k: nat :: k <= maxRetries && reply(k) == Body(Some("")) && Undecided(reply, cancel, k)
  {
    hide CancelledAt;
    var stop := FirstStop(reply, cancel, maxRetries, 0);
    assert stop.Some?;
    FirstStopIs(reply, cancel, maxRetries, stop.value);
  }

  /** The call sleeps at most a second per retry. */
  lemma {:induction false} PausesBounded(reply: nat -> Reply, n: nat)
    ensures 500 * n <= Sum(Pauses(reply, n)) <= 1000 * n
  {
    if n > 0 {
      PausesBounded(reply, n - 1);
      var ms := Pauses(reply, n);
      assert |ms| == n && ms[n - 1] == Pause(reply(n - 1));
      assert ms[..|ms| - 1] == Pauses(reply, n - 1);
      assert Sum(ms) == Sum(Pauses(reply, n - 1)) + Pause(reply(n - 1));
    }
  }

  // ----- Attempt by attempt, in status numbers -----

  function Shifted(reply: nat -> Reply): nat -> Reply {
    (k: nat) => reply(k + 1)
  }

  function ShiftedCancel(cancel: Cancel): Cancel {
    match cancel
    case None => None
    case Some(seen) => Some((k: nat) => seen(k + 1))
  }

  /** The same error, one attempt later. */
  function OneLater(r: Result<string, TransportError>): Result<string, TransportError> {
    match r
    case Err(Http(status, FailFast(attempt))) => Err(Http(status, FailFast(attempt + 1)))
    case _ => r
  }

  /** A cancellation seen at once, a body and a status from 400 to 499 end the call at its first attempt. */
  lemma FirstAttemptEnds(reply: nat -> Reply, cancel: Cancel, maxRetries: nat)
    ensures var e := Expected(reply, cancel, maxRetries);
            && (CancelledAt(cancel, 0) ==> e == Outcome(Err(Cancelled), 0, []))
            && (!CancelledAt(cancel, 0) ==>
                 match reply(0)
                 case Body(None) => e == Outcome(Err(DecodeResponse), 1, [])
                 case Body(Some(content)) => e == Outcome(if content == "" then Err(EmptyCompletion) else Ok(content), 1, [])
                 case HttpError(status) =>
                   400 <= status <= 499 ==> e == Outcome(Err(Http(status, FailFast(0))), 1, [])
                 case Failure(_) => true)
  {
    assert Pauses(reply, 0) == [];
  }

  lemma {:induction false} StopShifted(reply: nat -> Reply, cancel: Cancel, max: nat, k: nat)
    requires max > 0 && k <= max
    ensures FirstStop(reply, cancel, max, k + 1)
         == match FirstStop(Shifted(reply), ShiftedCancel(cancel), max - 1, k) { case None => None case Some(j) => Some(j + 1) }
    decreases max - k
  {
    if k < max {
      assert StopsAt(reply, cancel, k + 1) <==> StopsAt(Shifted(reply), ShiftedCancel(cancel), k);
      StopShifted(reply, cancel, max, k + 1);
    }
  }

  /** Any other failure, 503 and every status outside 400 to 499 among them, is retried: a second after a 503, else half. */
  lemma OtherFailuresAreRetried(reply: nat -> Reply, cancel: Cancel, maxRetries: nat)
    requires !CancelledAt(cancel, 0)
    requires reply(0).Failure? || (reply(0).HttpError? && (reply(0).status < 400 || reply(0).status > 499))
    ensures var e := Expected(reply, cancel, maxRetries);
            if maxRetries == 0 then
              e == Outcome(Err(match reply(0) case HttpError(status) => Http(status, AsReceived) case Failure(code) => Other(code)), 1, [])
            else
              var later := Expected(Shifted(reply), ShiftedCancel(cancel), maxRetries - 1);
              e == Outcome(OneLater(later.result), later.posts + 1, [if reply(0) == HttpError(503) then 1000 else 500] + later.sleeps)
  {
    assert !StopsAt(reply, cancel, 0);
    if maxRetries == 0 {
      assert FirstStop(reply, cancel, 0, 0) == FirstStop(reply, cancel, 0, 1) == None;
      assert Pauses(reply, 0) == [];
    } else {
      StopShifted(reply, cancel, maxRetries, 0);
      forall n: nat ensures Pauses(reply, n + 1) == [Pause(reply(0))] + Pauses(Shifted(reply), n) { }
      var stop := FirstStop(Shifted(reply), ShiftedCancel(cancel), maxRetries - 1, 0);
      assert FirstStop(reply, cancel, maxRetries, 0) == FirstStop(reply, cancel, maxRetries, 1);
      hide FirstStop, Pauses;
      if stop.Some? {
        assert CancelledAt(cancel, stop.value + 1) <==> CancelledAt(ShiftedCancel(cancel), stop.value);
      }
    }
  }
}
