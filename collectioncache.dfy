/**
  libs/getCollections.js: the collections list behind a one-minute file cache, fetched with a
  bounded number of attempts when the cache is stale, missing or unreadable. The JSON value is
  left abstract (J); the file system is one optional file, the clock a parameter, and the
  network a sequence of attempt outcomes.
*/
module CollectionCache {
  import opened Wrappers

  /** oneMinute: how long, in milliseconds, collections.json is served without a request. */
  const CacheTtl: nat := 60000

  /** The default of maxRetries. */
  const MaxRetries: nat := 10

  /** The default pause, in milliseconds, after a failed attempt that is not the last. */
  const RetryDelay: nat := 1000

  /** collections.json: its modification time, and its content when reading and parsing it
      succeed (None when either throws). */
  datatype CacheFile<J> = CacheFile(mtime: int, content: Option<J>)

  /** How one request to the collections endpoint went: the fetch threw, or it answered;
      `body` is None when `response.json()` throws. */
  datatype Attempt<J> =
    | NetworkFailure
    | Responded(ok: bool, status: int, body: Option<J>)

  /** Why one attempt failed. */
  datatype AttemptError = Thrown | BadStatus(status: int) | BadBody

  /** Why getCollections rejects. */
  datatype FetchError =
    | TokenUnavailable                                 // getToken threw, before any attempt
    | RetriesExhausted(retries: nat, last: AttemptError)  // every attempt failed; the last reason

  /** One attempt: a non-OK status fails it just as a thrown fetch or an unparsable body does. */
  function AttemptResult<J>(a: Attempt<J>): (r: Result<J, AttemptError>)
    ensures r.Success? <==> a.Responded? && a.ok && a.body.Some?
    ensures r.Success? ==> Some(r.value) == a.body
    ensures a.Responded? && !a.ok ==> r == Failure(BadStatus(a.status))
    ensures a.NetworkFailure? ==> r == Failure(Thrown)
  {
    match a
    case NetworkFailure => Failure(Thrown)
    case Responded(ok, status, body) =>
      if !ok then Failure(BadStatus(status))
      else if body.None? then Failure(BadBody)
      else Success(body.value)
  }

  /** The position of the first successful attempt among the first n. */
  function FirstSuccess<J>(attempts: seq<Attempt<J>>, n: nat): (k: Option<nat>)
    requires n <= |attempts|
    ensures k.Some? ==> k.value < n && AttemptResult(attempts[k.value]).Success?
    ensures k.Some? ==> forall j :: 0 <= j < k.value ==> AttemptResult(attempts[j]).Failure?
    ensures k.None? <==> forall j :: 0 <= j < n ==> AttemptResult(attempts[j]).Failure?
  {
    if n == 0 then None
    else match FirstSuccess(attempts, n - 1)
      case Some(k) => Some(k)
      case None => if AttemptResult(attempts[n - 1]).Success? then Some(n - 1) else None
  }

  /** What the cache check yields at time `now`: the parsed content of a file younger than
      CacheTtl, and nothing when the file is missing, stale or unreadable. */
  function CacheHit<J>(file: Option<CacheFile<J>>, now: int): (hit: Option<J>)
    ensures hit.Some? <==> file.Some? && now - file.value.mtime < CacheTtl && file.value.content.Some?
    ensures hit.Some? ==> hit == file.value.content
  {
    if file.Some? && now - file.value.mtime < CacheTtl then file.value.content else None
  }

  /** How makeRequestWithRetries ends on the given attempts: the first success among the first
      maxRetries, or an error naming maxRetries and the last attempt's failure. */
  function RetryOutcome<J>(attempts: seq<Attempt<J>>, maxRetries: nat): (r: Result<J, FetchError>)
    requires 1 <= maxRetries <= |attempts|
    ensures r.Success? <==> exists j :: 0 <= j < maxRetries && AttemptResult(attempts[j]).Success?
    ensures r.Failure? ==> r.error == RetriesExhausted(maxRetries, AttemptResult(attempts[maxRetries - 1]).error)
  {
    match FirstSuccess(attempts, maxRetries)
    case Some(k) => Success(AttemptResult(attempts[k]).value)
    case None => Failure(RetriesExhausted(maxRetries, AttemptResult(attempts[maxRetries - 1]).error))
  }

  /** The number of requests makeRequestWithRetries makes: up to and including the first
      success, all of them otherwise. */
  function RequestsMade<J>(attempts: seq<Attempt<J>>, maxRetries: nat): (n: nat)
    requires maxRetries <= |attempts|
    ensures n <= maxRetries
  {
    match FirstSuccess(attempts, maxRetries)
    case Some(k) => k + 1
    case None => maxRetries
  }

  /** A successful retry loop returns the data of its last request, which is the first
      successful attempt, and makes no request after it; a failed one made every request. */
  lemma {:induction false} RetryOutcomeIsFirstSuccess<J>(attempts: seq<Attempt<J>>, maxRetries: nat)
    requires 1 <= maxRetries <= |attempts|
    ensures RetryOutcome(attempts, maxRetries).Success? ==>
      var n := RequestsMade(attempts, maxRetries);
      && 1 <= n
      && AttemptResult(attempts[n - 1]).Success?
      && AttemptResult(attempts[n - 1]).value == RetryOutcome(attempts, maxRetries).value
      && forall j :: 0 <= j < n - 1 ==> AttemptResult(attempts[j]).Failure?
    ensures RetryOutcome(attempts, maxRetries).Failure? ==>
      RequestsMade(attempts, maxRetries) == maxRetries
  {
    match FirstSuccess(attempts, maxRetries)
    case Some(k) =>
      assert AttemptResult(attempts[k]).Success?;
    case None =>
  }

  /** The file system as getCollections sees it: collections.json, or nothing. */
  class Disk<J> {
    var collectionsFile: Option<CacheFile<J>>

    constructor (file: Option<CacheFile<J>>)
      ensures collectionsFile == file
    {
      collectionsFile := file;
    }

    /** makeRequestWithRetries: attempts numbered 1 to maxRetries; the first success is
        written to collections.json (at time `savedAt`, when `writeSucceeds`) and returned, a
        failure that is not the last is followed by one pause, and the last failure rejects.
        A failed write is only logged. `waited` is the total pause in milliseconds. */
    method MakeRequestWithRetries(attempts: seq<Attempt<J>>, maxRetries: nat, writeSucceeds: bool, savedAt: int)
      returns (r: Result<J, FetchError>, requests: nat, waited: nat)
      requires 1 <= maxRetries <= |attempts|
      modifies this
      ensures r == RetryOutcome(attempts, maxRetries)
      ensures requests == RequestsMade(attempts, maxRetries)
      ensures waited == (requests - 1) * RetryDelay
      ensures collectionsFile == if r.Success? && writeSucceeds then Some(CacheFile(savedAt, Some(r.value)))
                                 else old(collectionsFile)
    {
      requests, waited := 0, 0;
      var attempt := 1;
      while true
        invariant 1 <= attempt <= maxRetries
        invariant requests == attempt - 1 && waited == (attempt - 1) * RetryDelay
        invariant forall j :: 0 <= j < attempt - 1 ==> AttemptResult(attempts[j]).Failure?
        invariant collectionsFile == old(collectionsFile)
        decreases maxRetries - attempt
      {
        requests := requests + 1;
        var result := AttemptResult(attempts[attempt - 1]);
        if result.Success? {
          if writeSucceeds {
            collectionsFile := Some(CacheFile(savedAt, Some(result.value)));
          }
          assert FirstSuccess(attempts, maxRetries) == Some(attempt - 1) by {
            FirstSuccessIsFirst(attempts, maxRetries, attempt - 1);
          }
          return Success(result.value), requests, waited;
        }
        if attempt == maxRetries {
          return Failure(RetriesExhausted(maxRetries, result.error)), requests, waited;
        }
        waited := waited + RetryDelay;
        attempt := attempt + 1;
      }
    }

    /** getCollections at time `now`: a fresh, readable collections.json is returned without a
        request; otherwise (a read error is swallowed) a token is fetched, which rejects the
        whole call when it fails, and the retry loop runs with its defaults. */
    method GetCollections(now: int, tokenAvailable: bool, attempts: seq<Attempt<J>>,
                          writeSucceeds: bool, savedAt: int)
      returns (r: Result<J, FetchError>, requests: nat)
      requires |attempts| >= MaxRetries
      modifies this
      ensures CacheHit(old(collectionsFile), now).Some? ==>
        r == Success(CacheHit(old(collectionsFile), now).value) && requests == 0 && collectionsFile == old(collectionsFile)
      ensures CacheHit(old(collectionsFile), now).None? && !tokenAvailable ==>
        r == Failure(TokenUnavailable) && requests == 0 && collectionsFile == old(collectionsFile)
      ensures CacheHit(old(collectionsFile), now).None? && tokenAvailable ==>
        && r == RetryOutcome(attempts, MaxRetries)
        && requests == RequestsMade(attempts, MaxRetries)
        && collectionsFile == if r.Success? && writeSucceeds then Some(CacheFile(savedAt, Some(r.value)))
                              else old(collectionsFile)
    {
      var hit := CacheHit(collectionsFile, now);
      if hit.Some? {
        return Success(hit.value), 0;
      }
      if !tokenAvailable {
        return Failure(TokenUnavailable), 0;
      }
      var waited;
      r, requests, waited := MakeRequestWithRetries(attempts, MaxRetries, writeSucceeds, savedAt);
    }
  }

  /** A success at k after failures at every earlier position is the first success among any
      n > k attempts. */
  lemma {:induction false} FirstSuccessIsFirst<J>(attempts: seq<Attempt<J>>, n: nat, k: nat)
    requires k < n <= |attempts|
    requires AttemptResult(attempts[k]).Success?
    requires forall j :: 0 <= j < k ==> AttemptResult(attempts[j]).Failure?
    ensures FirstSuccess(attempts, n) == Some(k)
  {
    if n > k + 1 {
      FirstSuccessIsFirst(attempts, n - 1, k);
    }
  }

  /** A file written by a successful request serves the same data, without a request, to every
      call made less than a minute after the write. */
  lemma WrittenDataIsServed<J>(data: J, savedAt: int, now: int)
    requires savedAt <= now < savedAt + CacheTtl
    ensures CacheHit(Some(CacheFile(savedAt, Some(data))), now) == Some(data)
  {
  }
}
