/** The fixed-window per-IP rate limiter both edge functions share
    (`checkRateLimit`): a map from client IP to the request count of its
    current window and the time that window ends. The clock is a parameter. */
module RateLimit {
  datatype Record = Record(count: int, resetTime: int)

  type Table = map<string, Record>

  const WINDOW_MS: int := 60000
  /** The blog-post function's default limit. */
  const BLOG_MAX_REQUESTS: int := 10
  /** The image-upload function's default limit. */
  const UPLOAD_MAX_REQUESTS: int := 20

  /** No record yet, or the record's window has ended. The comparison is
      strict: a request at exactly `resetTime` still belongs to the old window. */
  predicate Expired(t: Table, ip: string, now: int) {
    ip !in t || now > t[ip].resetTime
  }

  /** `checkRateLimit(ip, maxRequests, windowMs)` at time `now`: whether the
      request is allowed, and the table afterwards. */
  function Check(t: Table, ip: string, now: int, maxRequests: int, windowMs: int): (r: (bool, Table))
    ensures r.0 <==> Expired(t, ip, now) || t[ip].count < maxRequests
    ensures ip in r.1
    ensures Expired(t, ip, now) ==> r.1[ip] == Record(1, now + windowMs)
    ensures !Expired(t, ip, now) && r.0 ==> r.1[ip] == Record(t[ip].count + 1, t[ip].resetTime)
    ensures !r.0 ==> r.1 == t
    ensures forall other :: other != ip ==> (other in r.1 <==> other in t)
    ensures forall other :: other != ip && other in t ==> r.1[other] == t[other]
  {
    if Expired(t, ip, now) then (true, t[ip := Record(1, now + windowMs)])
    else if t[ip].count >= maxRequests then (false, t)
    else (true, t[ip := t[ip].(count := t[ip].count + 1)])
  }

  /** Requests from one IP at the given times: how many are allowed, and the table after. */
  function Run(t: Table, ip: string, times: seq<int>, maxRequests: int, windowMs: int): (r: (nat, Table))
    ensures r.0 <= |times|
    decreases |times|
  {
    if |times| == 0 then (0, t)
    else
      var (ok, t1) := Check(t, ip, times[0], maxRequests, windowMs);
      var (n, t2) := Run(t1, ip, times[1..], maxRequests, windowMs);
      ((if ok then 1 else 0) + n, t2)
  }

  function Min(a: int, b: int): int { if a <= b then a else b }
  function Max(a: int, b: int): int { if a >= b then a else b }

  /** Inside an active window (no request after its end) exactly the
      remaining quota is granted, whatever the request times, and the window
      end does not move. */
  lemma {:induction false} ActiveWindowAllows(t: Table, ip: string, times: seq<int>, maxRequests: int, windowMs: int)
    requires ip in t
    requires forall k :: 0 <= k < |times| ==> times[k] <= t[ip].resetTime
    ensures var (n, t') := Run(t, ip, times, maxRequests, windowMs);
      n == Min(|times|, Max(0, maxRequests - t[ip].count))
      && ip in t' && t'[ip].resetTime == t[ip].resetTime
      && t'[ip].count == t[ip].count + n
    decreases |times|
  {
    if |times| > 0 {
      var (ok, t1) := Check(t, ip, times[0], maxRequests, windowMs);
      ActiveWindowAllows(t1, ip, times[1..], maxRequests, windowMs);
    }
  }

  /** A request that opens a new window is allowed, and of the requests up to
      the new window's end at most `maxRequests` are allowed (at least the
      first one, even for a limit below 1). */
  lemma FreshWindowAllowsAtMostMax(t: Table, ip: string, t0: int, rest: seq<int>, maxRequests: int, windowMs: int)
    requires Expired(t, ip, t0)
    requires forall k :: 0 <= k < |rest| ==> rest[k] <= t0 + windowMs
    ensures Run(t, ip, [t0] + rest, maxRequests, windowMs).0 == Min(1 + |rest|, Max(1, maxRequests))
  {
    var t1 := Check(t, ip, t0, maxRequests, windowMs).1;
    assert ([t0] + rest)[1..] == rest;
    ActiveWindowAllows(t1, ip, rest, maxRequests, windowMs);
  }

  /** A full window is still closed at exactly its end time and opens one
      millisecond later. */
  lemma WindowBoundaryIsStrict(t: Table, ip: string, maxRequests: int, windowMs: int)
    requires ip in t && t[ip].count >= maxRequests
    ensures !Check(t, ip, t[ip].resetTime, maxRequests, windowMs).0
    ensures Check(t, ip, t[ip].resetTime + 1, maxRequests, windowMs).0
  {
  }

  /** Requests from one IP never change another IP's record. */
  lemma {:induction false} RunIsolatesIps(t: Table, ip: string, times: seq<int>, maxRequests: int, windowMs: int, other: string)
    requires other != ip
    ensures var t' := Run(t, ip, times, maxRequests, windowMs).1;
      (other in t' <==> other in t) && (other in t ==> t'[other] == t[other])
    decreases |times|
  {
    if |times| > 0 {
      var t1 := Check(t, ip, times[0], maxRequests, windowMs).1;
      RunIsolatesIps(t1, ip, times[1..], maxRequests, windowMs, other);
    }
  }

  /** With the configured limits: the eleventh blog request and the
      twenty-first upload request of one window are refused. */
  lemma ConfiguredLimits(t: Table, ip: string, t0: int, rest: seq<int>)
    requires Expired(t, ip, t0)
    requires forall k :: 0 <= k < |rest| ==> rest[k] <= t0 + WINDOW_MS
    ensures Run(t, ip, [t0] + rest, BLOG_MAX_REQUESTS, WINDOW_MS).0 == Min(1 + |rest|, 10)
    ensures Run(t, ip, [t0] + rest, UPLOAD_MAX_REQUESTS, WINDOW_MS).0 == Min(1 + |rest|, 20)
  {
    FreshWindowAllowsAtMostMax(t, ip, t0, rest, BLOG_MAX_REQUESTS, WINDOW_MS);
    FreshWindowAllowsAtMostMax(t, ip, t0, rest, UPLOAD_MAX_REQUESTS, WINDOW_MS);
  }
}
