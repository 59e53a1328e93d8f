/**
 The per-client token bucket of API_gateway/rate_limiter.py, with real-valued time, and the
 exact set of requests it admits.
 */
module RateLimiter {
  import opened Wrappers
  import opened Text
  import opened TextFacts

  const MAX_TOKENS := 100.0
  const REFILL_RATE := 100.0

  const DROP_BODY := "<h1>429 Too Many Requests</h1><p>Gateway Traffic Clamped.</p>"
  const DROP_RESPONSE :=
    "HTTP/1.1 429 Too Many Requests\r\nContent-Type: text/html\r\nContent-Length: " + PrintNat(|DROP_BODY|)
    + "\r\n\r\n" + DROP_BODY

  datatype Bucket = Bucket(tokens: real, lastUpdated: real)

  datatype Request = Request(client: string, headers: seq<string>, now: real)

  type Buckets = map<string, Bucket>

  predicate BenchmarkHeader(line: string) { "x-benchmark:" <= Lower(line) }

  predicate Bypassed(r: Request) { exists i :: 0 <= i < |r.headers| && BenchmarkHeader(r.headers[i]) }

  /** A header line that begins with "X-Benchmark:", in any letter case. */
  predicate Exempting(line: string) { |line| >= 12 && SameLetters(line[..12], "x-benchmark:") }

  predicate Exempt(r: Request) { exists i :: 0 <= i < |r.headers| && Exempting(r.headers[i]) }

  function Min(a: real, b: real): real { if a <= b then a else b }

  /** The tokens a client has at time `now`, before paying; a new client starts full. */
  function Refilled(b: Buckets, client: string, now: real): real {
    var prior := if client in b then b[client] else Bucket(MAX_TOKENS, now);
    Min(MAX_TOKENS, prior.tokens + (now - prior.lastUpdated) * REFILL_RATE)
  }

  predicate Accepts(b: Buckets, r: Request) { Bypassed(r) || Refilled(b, r.client, r.now) >= 1.0 }

  function Step(b: Buckets, r: Request): Buckets {
    if Bypassed(r) then b
    else
      var tokens := Refilled(b, r.client, r.now);
      b[r.client := Bucket(if tokens >= 1.0 then tokens - 1.0 else tokens, r.now)]
  }

  class RateLimiter {
    var buckets: Buckets

    constructor ()
      ensures buckets == map[]
    {
      buckets := map[];
    }

    method Middleware(r: Request) returns (passed: bool, response: Option<string>)
      modifies this
      ensures buckets == Step(old(buckets), r)
      ensures passed == Accepts(old(buckets), r)
      ensures response == if passed then None else Some(DROP_RESPONSE)
      ensures Exempt(r) ==> passed && buckets == old(buckets)
    {
      ExemptionIs(r);
      for i := 0 to |r.headers|
        invariant forall k :: 0 <= k < i ==> !BenchmarkHeader(r.headers[k])
        invariant buckets == old(buckets)
      {
        if BenchmarkHeader(r.headers[i]) {
          return true, None;
        }
      }
      if r.client !in buckets {
        buckets := buckets[r.client := Bucket(MAX_TOKENS, r.now)];
      }
      var elapsed := r.now - buckets[r.client].lastUpdated;
      var tokens := Min(MAX_TOKENS, buckets[r.client].tokens + elapsed * REFILL_RATE);
      if tokens >= 1.0 {
        buckets := buckets[r.client := Bucket(tokens - 1.0, r.now)];
        return true, None;
      }
      buckets := buckets[r.client := Bucket(tokens, r.now)];
      return false, Some(DROP_RESPONSE);
    }
  }

  lemma {:induction false} BenchmarkHeaderIs(line: string)
    ensures BenchmarkHeader(line) <==> Exempting(line)
  {
    LowerBegins(line, "x-benchmark:");
  }

  /** Exactly these requests are not metered: they pass, whatever the buckets, and leave them alone. */
  lemma {:induction false} ExemptionIs(r: Request)
    ensures Bypassed(r) <==> Exempt(r)
    ensures Exempt(r) ==> forall b: Buckets :: Accepts(b, r) && Step(b, r) == b
  {
    forall i | 0 <= i < |r.headers| ensures BenchmarkHeader(r.headers[i]) <==> Exempting(r.headers[i]) {
      BenchmarkHeaderIs(r.headers[i]);
    }
  }

  // ---- Runs: requests of all clients interleaved, in the order they take the lock ----

  function RunTo(requests: seq<Request>, i: nat): Buckets
    requires i <= |requests|
  {
    if i == 0 then map[] else Step(RunTo(requests, i - 1), requests[i - 1])
  }

  predicate Accepted(requests: seq<Request>, i: nat)
    requires i < |requests|
  {
    Accepts(RunTo(requests, i), requests[i])
  }

  /** Request `i` is one of `client`'s that the limiter meters. */
  predicate Metered(requests: seq<Request>, client: string, i: int) {
    0 <= i < |requests| && requests[i].client == client && !Bypassed(requests[i])
  }

  /** How many metered requests of `client` with index in [j, i) were accepted. */
  function Used(requests: seq<Request>, client: string, j: nat, i: nat): nat
    requires i <= |requests|
  {
    if i <= j then 0
    else
      var earlier := Used(requests, client, j, i - 1);
      if Metered(requests, client, i - 1) && Accepted(requests, i - 1) then earlier + 1 else earlier
  }

  /** The potential of a bucket: what does not change while it only refills. */
  function Potential(b: Bucket): real { b.tokens - REFILL_RATE * b.lastUpdated }

  /** What request `j` allows of the potential after `i` requests. */
  function Allowance(requests: seq<Request>, client: string, j: nat, i: nat): real
    requires j < |requests| && i <= |requests|
  {
    MAX_TOKENS - REFILL_RATE * requests[j].now - Used(requests, client, j, i) as real
  }

  /** The potential is the least allowance of the client's metered requests so far; `w` is one that attains it. */
  lemma {:induction false} PotentialIsLeastAllowance(requests: seq<Request>, client: string, i: nat) returns (w: nat)
    requires i <= |requests|
    ensures client in RunTo(requests, i) <==> exists j :: j < i && Metered(requests, client, j)
    ensures client in RunTo(requests, i) ==>
      var p := Potential(RunTo(requests, i)[client]);
      && (forall j: nat :: j < i && Metered(requests, client, j) ==> p <= Allowance(requests, client, j, i))
      && w < i && Metered(requests, client, w) && p == Allowance(requests, client, w, i)
  {
    w := 0;
    if i > 0 {
      w := PotentialIsLeastAllowance(requests, client, i - 1);
      var b, b' := RunTo(requests, i - 1), RunTo(requests, i);
      if Metered(requests, client, i - 1) {
        var r := requests[i - 1];
        var full := MAX_TOKENS - REFILL_RATE * r.now;
        if client !in b || Refilled(b, client, r.now) == MAX_TOKENS {
          w := i - 1;
        }
        assert Used(requests, client, i - 1, i - 1) == 0;
      }
    }
  }

  /**
   Exact admission: a metered request is accepted iff, for every metered request of the same
   client up to and including it, the number accepted since then plus one is at most
   100 + 100 * (time since then). Other clients, and the order of the clock readings, do not matter.
   */
  lemma {:induction false} ExactAdmission(requests: seq<Request>, client: string, i: nat)
    requires Metered(requests, client, i)
    ensures Accepted(requests, i) <==>
      forall j: nat :: j <= i && Metered(requests, client, j) ==>
        Used(requests, client, j, i) as real + 1.0 <= 100.0 + 100.0 * (requests[i].now - requests[j].now)
  {
    var w := PotentialIsLeastAllowance(requests, client, i);
    var b, now := RunTo(requests, i), requests[i].now;
    forall j: nat | j < i && Metered(requests, client, j)
      ensures Used(requests, client, j, i) as real + 1.0 <= MAX_TOKENS + REFILL_RATE * (now - requests[j].now)
              <==> 1.0 <= Allowance(requests, client, j, i) + REFILL_RATE * now
    {
    }
    assert Used(requests, client, i, i) == 0;
  }

  /** What is metered, and that only requests without such a header can be refused. */
  lemma {:induction false} MeteredIs(requests: seq<Request>, client: string, i: nat)
    requires i < |requests|
    ensures Metered(requests, client, i) <==> requests[i].client == client && !Exempt(requests[i])
    ensures !Accepted(requests, i) ==> Metered(requests, requests[i].client, i)
  {
    ExemptionIs(requests[i]);
  }

  /** A metered request of `client` at a time in [a, b]. */
  predicate InWindow(requests: seq<Request>, client: string, i: int, a: real, b: real) {
    Metered(requests, client, i) && a <= requests[i].now <= b
  }

  /** How many requests of `client` at times in [a, b], of the first `i` of all, were accepted. */
  function UsedWithin(requests: seq<Request>, client: string, a: real, b: real, i: nat): nat
    requires i <= |requests|
  {
    if i == 0 then 0
    else
      var earlier := UsedWithin(requests, client, a, b, i - 1);
      if InWindow(requests, client, i - 1, a, b) && Accepted(requests, i - 1) then earlier + 1 else earlier
  }

  /**
   In any window of time, wherever in the run its requests stand: a client has at most
   100 + 100 * length of them accepted. The clock may run backwards.
   */
  lemma {:induction false} WindowBound(requests: seq<Request>, client: string, a: real, b: real, i: nat)
    requires i <= |requests| && a <= b
    ensures UsedWithin(requests, client, a, b, i) as real <= 100.0 + 100.0 * (b - a)
  {
    if i > 0 {
      if InWindow(requests, client, i - 1, a, b) && Accepted(requests, i - 1) {
        var first := FirstInWindow(requests, client, a, b, 0, i - 1);
        ExactAdmission(requests, client, i - 1);
        assert Used(requests, client, first, i - 1) as real + 1.0
            <= MAX_TOKENS + REFILL_RATE * (requests[i - 1].now - requests[first].now);
      } else {
        WindowBound(requests, client, a, b, i - 1);
      }
    }
  }

  /** The first request in the window; nothing before it is counted. */
  lemma {:induction false} FirstInWindow(requests: seq<Request>, client: string, a: real, b: real, k: nat, i: nat)
    returns (first: nat)
    requires k <= i && InWindow(requests, client, i, a, b)
    requires forall j :: 0 <= j < k ==> !InWindow(requests, client, j, a, b)
    ensures first <= i && InWindow(requests, client, first, a, b)
    ensures UsedWithin(requests, client, a, b, i) <= Used(requests, client, first, i)
    decreases i - k
  {
    if InWindow(requests, client, k, a, b) {
      first := k;
      WithinIsUsed(requests, client, a, b, k, i);
    } else {
      first := FirstInWindow(requests, client, a, b, k + 1, i);
    }
  }

  lemma {:induction false} WithinIsUsed(requests: seq<Request>, client: string, a: real, b: real, k: nat, i: nat)
    requires i <= |requests| && forall j :: 0 <= j < k ==> !InWindow(requests, client, j, a, b)
    ensures UsedWithin(requests, client, a, b, i) <= Used(requests, client, k, i)
    decreases i
  {
    if i > 0 {
      WithinIsUsed(requests, client, a, b, k, i - 1);
    }
  }

  /** The potential of a bucket never increases, even when clock readings arrive out of order. */
  lemma {:induction false} PotentialNeverIncreases(requests: seq<Request>, client: string, i: nat, k: nat)
    requires i <= k <= |requests| && client in RunTo(requests, i)
    ensures client in RunTo(requests, k)
    ensures Potential(RunTo(requests, k)[client]) <= Potential(RunTo(requests, i)[client])
    decreases k
  {
    if i < k {
      PotentialNeverIncreases(requests, client, i, k - 1);
    }
  }

  /** With a clock that never runs back for this client, its tokens stay within [0, 100]. */
  lemma {:induction false} TokensInRange(requests: seq<Request>, client: string, i: nat)
    requires i <= |requests|
    requires forall j, k :: 0 <= j < k < i && Metered(requests, client, j) && Metered(requests, client, k) ==>
      requests[j].now <= requests[k].now
    ensures client in RunTo(requests, i) ==> 0.0 <= RunTo(requests, i)[client].tokens <= 100.0
    ensures client in RunTo(requests, i) ==>
      exists j: nat :: j < i && Metered(requests, client, j) &&
        RunTo(requests, i)[client].lastUpdated == requests[j].now
  {
    if i > 0 {
      TokensInRange(requests, client, i - 1);
      if Metered(requests, client, i - 1) {
      } else if client in RunTo(requests, i - 1) {
        var prior := RunTo(requests, i - 1)[client];
        var j: nat :| j < i - 1 && Metered(requests, client, j) && prior.lastUpdated == requests[j].now;
      }
    }
  }
}
