/** The bearer-token cache of the authenticating round tripper. */
module TokenCache {

  const MINUTE := 60_000_000_000
  const LIFETIME := 30 * MINUTE
  const MAX_DURATION := 0x7fff_ffff_ffff_ffff
  const MIN_DURATION := -0x8000_0000_0000_0000

  /** Times count nanoseconds from Go's zero time. */
  const ZERO_TIME := 0

  /** time.Since: the difference, saturated to an int64. */
  function Since(now: int, t: int): int {
    if now - t > MAX_DURATION then MAX_DURATION
    else if now - t < MIN_DURATION then MIN_DURATION
    else now - t
  }

  /** The two results of GetToken: a token comes back even with an error. */
  datatype Fetch = Fetched(token: string) | Failed(token: string)

  /** A request: the clock when the cache is checked, what a fetch would give, the clock after it. */
  datatype Request = Request(check: int, fetch: Fetch, recorded: int)

  datatype State = State(token: string, exp: int)

  const INIT := State("", ZERO_TIME)

  predicate Fetches(s: State, r: Request) { Since(r.check, s.exp) > LIFETIME }

  predicate Refreshes(s: State, r: Request) { Fetches(s, r) && r.fetch.Fetched? }

  function Step(s: State, r: Request): State {
    if !Fetches(s, r) then s
    else if r.fetch.Failed? then State(r.fetch.token, s.exp)
    else State(r.fetch.token, r.recorded)
  }

  /** A request goes out unless the fetch it needed failed. */
  predicate Forwards(s: State, r: Request) { !Fetches(s, r) || r.fetch.Fetched? }

  class HttpRequest {
    var authorization: seq<string>

    constructor ()
      ensures authorization == []
    {
      authorization := [];
    }
  }

  class AuthRoundTripper {
    var token: string
    var exp: int

    constructor ()
      ensures Contents() == INIT
    {
      token, exp := "", ZERO_TIME;
    }

    ghost function Contents(): State
      reads this
    {
      State(token, exp)
    }

    method RoundTrip(request: HttpRequest, r: Request) returns (forwarded: bool)
      modifies this, request
      ensures Contents() == Step(old(Contents()), r)
      ensures forwarded == Forwards(old(Contents()), r)
      ensures var fetches := Since(r.check, old(exp)) > 30 * 60 * 1_000_000_000;
              && token == (if fetches then r.fetch.token else old(token))
              && exp == (if fetches && r.fetch.Fetched? then r.recorded else old(exp))
              && (forwarded <==> !fetches || r.fetch.Fetched?)
      ensures request.authorization
           == old(request.authorization) + if forwarded then ["Bearer " + token] else []
    {
      if Since(r.check, exp) > LIFETIME {
        token := r.fetch.token;
        if r.fetch.Failed? {
          return false;
        }
        exp := r.recorded;
      }
      request.authorization := request.authorization + ["Bearer " + token];
      return true;
    }
  }

  // ----- Runs -----

  function Run(s: State, rs: seq<Request>): State {
    if rs == [] then s else Step(Run(s, rs[..|rs| - 1]), rs[|rs| - 1])
  }

  /** Clock readings never go back between `t0` and `t1`. */
  ghost predicate Monotone(t0: int, rs: seq<Request>, t1: int) {
    if rs == [] then t0 <= t1 else
    var r := rs[|rs| - 1];
    Monotone(t0, rs[..|rs| - 1], r.check) && r.check <= r.recorded <= t1
  }

  ghost predicate RefreshesAt(rs: seq<Request>, i: int) {
    0 <= i < |rs| && Refreshes(Run(INIT, rs[..i]), rs[i])
  }

  ghost predicate IsLastRefresh(rs: seq<Request>, j: int) {
    RefreshesAt(rs, j) && forall i :: j < i < |rs| ==> !RefreshesAt(rs, i)
  }

  lemma RefreshesInPrefix(rs: seq<Request>, i: int)
    requires rs != [] && i < |rs| - 1
    ensures RefreshesAt(rs, i) <==> RefreshesAt(rs[..|rs| - 1], i)
  {
    if 0 <= i {
      assert rs[..|rs| - 1][..i] == rs[..i];
    }
  }

  /**
   * The cache holds the last refresh, unless a later fetch failed; then the clock shows that
   * the cache is out of date. Without a refresh the expiry is the zero time.
   */
  lemma {:induction false} CacheHoldsLastRefresh(rs: seq<Request>, t0: int, t1: int) returns (j: int)
    requires Monotone(t0, rs, t1) && t0 - ZERO_TIME > LIFETIME
    ensures -1 <= j < |rs|
    ensures j == -1 ==> Run(INIT, rs).exp == ZERO_TIME && forall i :: !RefreshesAt(rs, i)
    ensures j >= 0 ==> IsLastRefresh(rs, j) && Run(INIT, rs).exp == rs[j].recorded
    ensures j >= 0 && Run(INIT, rs).token != rs[j].fetch.token ==> t1 - Run(INIT, rs).exp > LIFETIME
    ensures t0 <= t1
  {
    if rs == [] {
      j := -1;
    } else {
      var n := |rs| - 1;
      var pre := rs[..n];
      j := CacheHoldsLastRefresh(pre, t0, rs[n].check);
      forall i | i < n ensures RefreshesAt(rs, i) <==> RefreshesAt(pre, i) {
        RefreshesInPrefix(rs, i);
      }
      if RefreshesAt(rs, n) {
        j := n;
      }
    }
  }

  lemma {:induction false} MonotonePrefix(t0: int, rs: seq<Request>, t1: int, i: nat)
    requires Monotone(t0, rs, t1) && i < |rs|
    ensures Monotone(t0, rs[..i], rs[i].check)
    ensures i + 1 < |rs| ==> rs[i].check <= rs[i + 1].check
  {
    var n := |rs| - 1;
    if i < n {
      MonotonePrefix(t0, rs[..n], rs[n].check, i);
      assert rs[..n][..i] == rs[..i];
      if i == n - 1 {
        assert rs[..n][n - 1] == rs[n - 1];
      }
    }
  }

  /**
   * Every forwarded request carries the token of the most recent refresh, and that refresh was
   * recorded at most 30 minutes before the request was checked; failed fetches do not matter.
   */
  lemma TokenIsFresh(rs: seq<Request>, t0: int, t1: int, i: nat)
    requires Monotone(t0, rs, t1) && t0 - ZERO_TIME > LIFETIME
    requires i < |rs| && Forwards(Run(INIT, rs[..i]), rs[i])
    ensures exists j :: j <= i && IsLastRefresh(rs[..i + 1], j)
              && Run(INIT, rs[..i + 1]).token == rs[j].fetch.token
              && rs[i].check - rs[j].recorded <= 30 * 60 * 1_000_000_000
  {
    if Fetches(Run(INIT, rs[..i]), rs[i]) {
      FreshAfterFetch(rs, t0, t1, i);
    } else {
      var _ := FreshFromCache(rs, t0, t1, i);
    }
  }

  lemma RefreshesBefore(rs: seq<Request>, i: nat)
    requires i < |rs|
    ensures forall k :: k < i ==> (RefreshesAt(rs[..i + 1], k) <==> RefreshesAt(rs[..i], k))
    ensures RefreshesAt(rs[..i + 1], i) <==> Refreshes(Run(INIT, rs[..i]), rs[i])
    ensures Run(INIT, rs[..i + 1]) == Step(Run(INIT, rs[..i]), rs[i])
  {
    var pre, now := rs[..i], rs[..i + 1];
    assert now[..i] == pre && now[i] == rs[i];
    forall k | k < i ensures RefreshesAt(now, k) <==> RefreshesAt(pre, k) {
      RefreshesInPrefix(now, k);
    }
  }

  lemma FreshAfterFetch(rs: seq<Request>, t0: int, t1: int, i: nat)
    requires Monotone(t0, rs, t1) && i < |rs| && Refreshes(Run(INIT, rs[..i]), rs[i])
    ensures IsLastRefresh(rs[..i + 1], i) && Run(INIT, rs[..i + 1]).token == rs[i].fetch.token
    ensures rs[i].check <= rs[i].recorded
  {
    RefreshesBefore(rs, i);
    RecordedAfterCheck(t0, rs, t1, i);
  }

  lemma FreshFromCache(rs: seq<Request>, t0: int, t1: int, i: nat) returns (j: int)
    requires Monotone(t0, rs, t1) && t0 - ZERO_TIME > LIFETIME
    requires i < |rs| && !Fetches(Run(INIT, rs[..i]), rs[i])
    ensures 0 <= j < i && IsLastRefresh(rs[..i + 1], j)
    ensures Run(INIT, rs[..i + 1]).token == rs[j].fetch.token && rs[i].check - rs[j].recorded <= LIFETIME
  {
    MonotonePrefix(t0, rs, t1, i);
    RefreshesBefore(rs, i);
    var pre, now := rs[..i], rs[..i + 1];
    j := CacheHoldsLastRefresh(pre, t0, rs[i].check);
    assert RefreshesAt(now, j);
    forall k | j < k < |now| ensures !RefreshesAt(now, k) {
      assert k < i ==> !RefreshesAt(pre, k);
    }
  }

  lemma {:induction false} RecordedAfterCheck(t0: int, rs: seq<Request>, t1: int, i: nat)
    requires Monotone(t0, rs, t1) && i < |rs|
    ensures rs[i].check <= rs[i].recorded
  {
    if i < |rs| - 1 {
      RecordedAfterCheck(t0, rs[..|rs| - 1], rs[|rs| - 1].check, i);
    }
  }

  /** A request that follows a failed fetch fetches again. */
  lemma FailureIsRetried(rs: seq<Request>, t0: int, t1: int, i: nat)
    requires Monotone(t0, rs, t1) && i + 1 < |rs|
    requires !Forwards(Run(INIT, rs[..i]), rs[i])
    ensures Fetches(Run(INIT, rs[..i + 1]), rs[i + 1])
  {
    MonotonePrefix(t0, rs, t1, i);
    assert rs[..i + 1][..i] == rs[..i];
  }

  function RefreshCount(s: State, rs: seq<Request>): nat {
    if rs == [] then 0 else
    RefreshCount(s, rs[..|rs| - 1])
    + if Refreshes(Run(s, rs[..|rs| - 1]), rs[|rs| - 1]) then 1 else 0
  }

  lemma {:induction false} RefreshesAreSpaced(s: State, rs: seq<Request>, t0: int, t1: int)
    requires Monotone(t0, rs, t1)
    ensures var k := RefreshCount(s, rs);
            && t0 <= t1
            && (k > 0 ==> (k - 1) * LIFETIME <= Run(s, rs).exp - t0 && Run(s, rs).exp <= t1)
            && (k > 1 ==> (k - 1) * LIFETIME < Run(s, rs).exp - t0)
  {
    if rs != [] {
      RefreshesAreSpaced(s, rs[..|rs| - 1], t0, rs[|rs| - 1].check);
    }
  }

  /**
   * However many requests are made, successful fetches are more than 30 minutes apart; only the
   * run of one fetch that takes no time at all meets the bound without a difference.
   */
  lemma FetchRateBound(s: State, rs: seq<Request>, t0: int, t1: int)
    requires Monotone(t0, rs, t1) && RefreshCount(s, rs) > 0
    ensures (RefreshCount(s, rs) - 1) * (30 * 60 * 1_000_000_000) <= t1 - t0
    ensures (RefreshCount(s, rs) - 1) * (30 * 60 * 1_000_000_000) < t1 - t0 <==> RefreshCount(s, rs) > 1 || t0 < t1
  {
    RefreshesAreSpaced(s, rs, t0, t1);
  }
}
