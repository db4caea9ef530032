/**
 * The stop request and the retrying download of `_download_and_save` (main.py). The HTTP
 * request, decoding and saving of one attempt are a single oracle outcome per attempt; the
 * stop flag is read (polled) before every attempt.
 */
module Download {
  import opened PyStrings

  /**
   * The stop flag is set once by the stop button and never cleared during a run, so a run
   * sees it as the index of the first poll of `should_stop` that reads true, or `None` if
   * no poll does. Polls are numbered across the whole run.
   */
  predicate Stopped(stopAt: Option<nat>, poll: nat) {
    stopAt.Some? && stopAt.value <= poll
  }

  /** Once a poll sees the request, every later poll does. */
  lemma StoppedMonotone(stopAt: Option<nat>, p: nat, q: nat)
    requires p <= q && Stopped(stopAt, p)
    ensures Stopped(stopAt, q)
  {
  }

  /** `max_retries`. */
  const MaxRetries: nat := 3

  /** Whether attempt `k` downloads, decodes and saves the image; missing entries fail. */
  predicate Attempt(attempts: seq<bool>, k: nat) {
    k < |attempts| && attempts[k]
  }

  /** What a download did: whether it saved, how many polls it made, what it slept (in seconds). */
  datatype Fetch = Fetch(ok: bool, polls: nat, sleeps: seq<nat>)

  /**
   * The attempts from `k` on, with poll `poll0 + k` before attempt `k`: a stop ends the
   * download unsuccessfully, a successful attempt ends it successfully, and a failed
   * attempt other than the last waits `k + 1` seconds.
   */
  function FetchFrom(attempts: seq<bool>, stopAt: Option<nat>, poll0: nat, k: nat): (f: Fetch)
    decreases MaxRetries - k
  {
    if k >= MaxRetries then Fetch(false, 0, [])
    else if Stopped(stopAt, poll0 + k) then Fetch(false, 1, [])
    else if Attempt(attempts, k) then Fetch(true, 1, [])
    else
      var rest := FetchFrom(attempts, stopAt, poll0, k + 1);
      Fetch(rest.ok, 1 + rest.polls, Wait(k) + rest.sleeps)
  }

  /** `f` preceded by `polls` polls and the waits `sleeps`. */
  function After(polls: nat, sleeps: seq<nat>, f: Fetch): Fetch {
    Fetch(f.ok, polls + f.polls, sleeps + f.sleeps)
  }

  /** The wait after failed attempt `k`. */
  function Wait(k: nat): seq<nat> {
    if k < MaxRetries - 1 then [k + 1] else []
  }

  /** A failed attempt before any stop: one poll, its wait, then the remaining attempts. */
  lemma FetchStep(attempts: seq<bool>, stopAt: Option<nat>, poll0: nat, k: nat)
    requires k < MaxRetries && !Stopped(stopAt, poll0 + k) && !Attempt(attempts, k)
    ensures FetchFrom(attempts, stopAt, poll0, k) == After(1, Wait(k), FetchFrom(attempts, stopAt, poll0, k + 1))
  {
  }

  lemma AfterAfter(p: nat, s: seq<nat>, q: nat, t: seq<nat>, f: Fetch)
    ensures After(p, s, After(q, t, f)) == After(p + q, s + t, f)
  {
    assert s + (t + f.sleeps) == (s + t) + f.sleeps;
  }

  /** `_download_and_save(url, filepath, fmt)`, starting at poll `poll0`. */
  method DownloadAndSave(attempts: seq<bool>, stopAt: Option<nat>, poll0: nat) returns (ok: bool, polls: nat, sleeps: seq<nat>)
    ensures Fetch(ok, polls, sleeps) == FetchFrom(attempts, stopAt, poll0, 0)
  {
    sleeps := [];
    polls := 0;
    var attempt: nat := 0;
    while attempt < MaxRetries
      invariant attempt <= MaxRetries && polls == attempt
      invariant FetchFrom(attempts, stopAt, poll0, 0) == After(polls, sleeps, FetchFrom(attempts, stopAt, poll0, attempt))
    {
      if Stopped(stopAt, poll0 + attempt) {
        return false, polls + 1, sleeps;
      }
      if Attempt(attempts, attempt) {
        return true, polls + 1, sleeps;
      }
      FetchStep(attempts, stopAt, poll0, attempt);
      AfterAfter(polls, sleeps, 1, Wait(attempt), FetchFrom(attempts, stopAt, poll0, attempt + 1));
      polls := polls + 1;
      if attempt < MaxRetries - 1 {
        sleeps := sleeps + [attempt + 1];
      }
      attempt := attempt + 1;
    }
    ok := false;
  }

  /**
   * A download saves exactly when some attempt among the three succeeds before the stop
   * request is seen.
   */
  lemma {:induction false} FetchOkIff(attempts: seq<bool>, stopAt: Option<nat>, poll0: nat, k: nat)
    ensures FetchFrom(attempts, stopAt, poll0, k).ok <==>
            exists j :: k <= j < MaxRetries && Attempt(attempts, j) && !Stopped(stopAt, poll0 + j)
    decreases MaxRetries - k
  {
    if k < MaxRetries && !Stopped(stopAt, poll0 + k) && !Attempt(attempts, k) {
      FetchOkIff(attempts, stopAt, poll0, k + 1);
      assert forall j :: k <= j < MaxRetries && Attempt(attempts, j) ==> j != k;
    }
  }

  /** A download polls at least once and at most once per attempt. */
  lemma {:induction false} FetchPollsBounded(attempts: seq<bool>, stopAt: Option<nat>, poll0: nat, k: nat)
    requires k < MaxRetries
    ensures 1 <= FetchFrom(attempts, stopAt, poll0, k).polls <= MaxRetries - k
    decreases MaxRetries - k
  {
    if !Stopped(stopAt, poll0 + k) && !Attempt(attempts, k) && k + 1 < MaxRetries {
      FetchPollsBounded(attempts, stopAt, poll0, k + 1);
    }
  }

  /** Without a stop, three failed attempts poll three times and wait 1 and then 2 seconds. */
  lemma AllAttemptsFail(attempts: seq<bool>, poll0: nat)
    requires forall k :: 0 <= k < MaxRetries ==> !Attempt(attempts, k)
    ensures FetchFrom(attempts, None, poll0, 0) == Fetch(false, 3, [1, 2])
  {
    assert FetchFrom(attempts, None, poll0, 2) == Fetch(false, 1, []);
    assert FetchFrom(attempts, None, poll0, 1) == Fetch(false, 2, [2]);
  }

  /** A stop request already seen makes the download give up before any attempt. */
  lemma StopBeforeDownload(attempts: seq<bool>, stopAt: Option<nat>, poll0: nat)
    requires Stopped(stopAt, poll0)
    ensures FetchFrom(attempts, stopAt, poll0, 0) == Fetch(false, 1, [])
  {
  }

  /** A first attempt that succeeds needs no retry and no wait. */
  lemma FirstAttemptSucceeds(attempts: seq<bool>, stopAt: Option<nat>, poll0: nat)
    requires Attempt(attempts, 0) && !Stopped(stopAt, poll0)
    ensures FetchFrom(attempts, stopAt, poll0, 0) == Fetch(true, 1, [])
  {
  }
}
