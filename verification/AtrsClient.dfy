/**
  The retry policy of the regulator's client: a recursion on the number of
  retries, against a server whose answers may be anything.
*/
module RetryPolicy {
  import opened Basics

  /** `Broken` is a failure the client does not turn into one of its own errors, such as a timeout. */
  datatype Refresh = Granted(token: string, expiresIn: int) | Denied | Broken

  /** `Transient` is any transport error or error status other than 401 and 429. */
  datatype Reply =
    | Ok(body: string)
    | RateLimited(reset: int)
    | Unauthorized
    | Transient
    | Fatal

  /** What one attempt meets: the time, the token endpoint's answer if it is asked, and the answer to the request. */
  datatype Turn = Turn(now: int, refresh: Refresh, reply: Reply)

  type Server = nat -> Turn

  datatype Try = Sent(token: string) | NoToken

  datatype Session = Session(token: Option<string>, expiry: Option<int>, tries: seq<Try>, slept: nat)

  datatype Result =
    | Response(body: string)
    | RateLimitError(reset: int)
    | AuthenticationError
    | ClientError(retries: nat)
    | Uncaught

  function Pow2(n: nat): (p: nat)
    ensures p >= 1
  {
    if n == 0 then 1 else 2 * Pow2(n - 1)
  }

  /** A minute before its expiry a token no longer serves. */
  predicate Expired(s: Session, now: int) {
    s.token.None? || s.expiry.None? || now >= s.expiry.value - 60
  }

  function EnsureToken(s: Session, turn: Turn): Session {
    if Expired(s, turn.now) && turn.refresh.Granted?
    then s.(token := Some(turn.refresh.token), expiry := Some(turn.now + turn.refresh.expiresIn))
    else s
  }

  predicate HasToken(s: Session, turn: Turn) {
    !Expired(s, turn.now) || turn.refresh.Granted?
  }

  function Sending(s: Session, turn: Turn): Session
    requires HasToken(s, turn)
  {
    var s1 := EnsureToken(s, turn);
    s1.(tries := s1.tries + [Sent(s1.token.value)])
  }

  predicate RetriesUnauthorized(reply: Reply, retry: nat) {
    reply.Unauthorized? && retry == 0
  }

  predicate RetriesTransient(max: int, reply: Reply, retry: nat) {
    reply.Transient? && retry < max
  }

  predicate Retries(max: int, reply: Reply, retry: nat) {
    RetriesUnauthorized(reply, retry) || RetriesTransient(max, reply, retry)
  }

  /** A refused token is forgotten and the request repeated at once; a transient failure is slept over. */
  function Prepared(s: Session, reply: Reply, retry: nat): Session {
    if reply.Unauthorized? then s.(token := None) else s.(slept := s.slept + Pow2(retry))
  }

  function Final(reply: Reply, retry: nat): Result {
    match reply
    case Ok(body) => Response(body)
    case RateLimited(reset) => RateLimitError(reset)
    case Unauthorized => AuthenticationError
    case Transient => ClientError(retry)
    case Fatal => Uncaught
  }

  function Request(max: int, server: Server, s: Session, retry: nat): (Session, Result)
    requires retry <= Max(max, 1)
    decreases Max(max, 1) - retry
  {
    var turn := server(retry);
    if !HasToken(s, turn) then
      (s.(tries := s.tries + [NoToken]), if turn.refresh.Denied? then AuthenticationError else Uncaught)
    else
      var s1 := Sending(s, turn);
      if Retries(max, turn.reply, retry)
      then Request(max, server, Prepared(s1, turn.reply, retry), retry + 1)
      else (s1, Final(turn.reply, retry))
  }
}

module RetryTheorems {
  import opened Basics
  import opened RetryPolicy

  lemma {:induction false} Pow2Grows(m: nat, n: nat)
    requires m <= n
    ensures Pow2(m) <= Pow2(n)
  {
    if m == n {
    } else {
      Pow2Grows(m, n - 1);
    }
  }

  /** The attempts of the call so far, its own included. */
  function Attempts(before: Session, after: Session): int {
    |after.tries| - |before.tries|
  }

  predicate EarnsRetry(max: int, server: Server, k: nat, try: Try) {
    try.Sent? && Retries(max, server(k).reply, k)
  }

  predicate EndsWith(max: int, server: Server, k: nat, try: Try, result: Result) {
    match try
    case Sent(_) => !Retries(max, server(k).reply, k) && result == Final(server(k).reply, k)
    case NoToken =>
      !server(k).refresh.Granted? && result == if server(k).refresh.Denied? then AuthenticationError else Uncaught
  }

  /** Every attempt but the last earned its retry, and the last one alone decides the result. */
  ghost predicate Explained(max: int, server: Server, retry: nat, tries: seq<Try>, result: Result) {
    && tries != []
    && (forall i :: 0 <= i < |tries| - 1 ==> EarnsRetry(max, server, retry + i, tries[i]))
    && EndsWith(max, server, retry + |tries| - 1, tries[|tries| - 1], result)
  }

  lemma OneMore(max: int, server: Server, retry: nat, before: seq<Try>, first: Try, after: seq<Try>, result: Result)
    requires before + [first] <= after && EarnsRetry(max, server, retry, first)
    requires Explained(max, server, retry + 1, after[|before| + 1..], result)
    ensures before <= after && Explained(max, server, retry, after[|before|..], result)
  {
    var tries, rest := after[|before|..], after[|before| + 1..];
    assert after[|before|] == first;
    assert tries == [first] + rest;
    forall i | 0 <= i < |tries| - 1 ensures EarnsRetry(max, server, retry + i, tries[i]) {
      if i > 0 {
        assert EarnsRetry(max, server, retry + 1 + (i - 1), rest[i - 1]);
      }
    }
  }

  lemma {:induction false} CallFrom(max: int, server: Server, s: Session, retry: nat)
    requires retry <= Max(max, 1)
    ensures var (after, result) := Request(max, server, s, retry);
      && |s.tries| < |after.tries| <= |s.tries| + Max(max, 1) + 1 - retry
      && s.tries <= after.tries
      && Explained(max, server, retry, after.tries[|s.tries|..], result)
    decreases Max(max, 1) - retry
  {
    var turn := server(retry);
    if !HasToken(s, turn) || !Retries(max, turn.reply, retry) {
    } else {
      var s1 := Sending(s, turn);
      var s2 := Prepared(s1, turn.reply, retry);
      CallFrom(max, server, s2, retry + 1);
      var (after, result) := Request(max, server, s2, retry + 1);
      var first := s1.tries[|s.tries|];
      assert s2.tries == s.tries + [first];
      OneMore(max, server, retry, s.tries, first, after.tries, result);
    }
  }

  lemma {:induction false} SleepFrom(max: int, server: Server, s: Session, retry: nat)
    requires retry <= Max(max, 1)
    ensures var after := Request(max, server, s, retry).0;
      var n := Attempts(s, after);
      && n >= 1
      && after.slept + Pow2(retry) + (if n > 1 && RetriesUnauthorized(server(retry).reply, retry) then 1 else 0)
         == s.slept + Pow2(retry + n - 1)
    decreases Max(max, 1) - retry
  {
    var turn := server(retry);
    if !HasToken(s, turn) || !Retries(max, turn.reply, retry) {
    } else {
      SleepFrom(max, server, Prepared(Sending(s, turn), turn.reply, retry), retry + 1);
    }
  }

  /**
    For any server the call ends, after at most max(maxRetries, 1) + 1 requests,
    at most one of them repeated because of a 401; it slept 2^(n-1) - 1 seconds
    over n attempts, one less if the first retry was such a repetition, so never
    more than 2^maxRetries - 1; and the last answer alone decides the result.
  */
  lemma RetriesAreBounded(max: int, server: Server, s: Session)
    ensures var (after, result) := Request(max, server, s, 0);
      var n := Attempts(s, after);
      && 1 <= n <= Max(max, 1) + 1
      && Explained(max, server, 0, after.tries[|s.tries|..], result)
      && after.slept - s.slept == Pow2(n - 1) - 1 - (if n > 1 && server(0).reply.Unauthorized? then 1 else 0)
      && after.slept - s.slept <= Pow2(Max(max, 0)) - 1
      && (forall k :: 0 < k < n - 1 ==> !server(k).reply.Unauthorized?)
  {
    CallFrom(max, server, s, 0);
    SleepFrom(max, server, s, 0);
    var after := Request(max, server, s, 0).0;
    var n := Attempts(s, after);
    Pow2Grows(n - 1, Max(max, 1));
    forall k | 0 < k < n - 1 ensures !server(k).reply.Unauthorized? {
      assert EarnsRetry(max, server, 0 + k, after.tries[|s.tries|..][k]);
    }
  }

  /** What the last reply makes of the call, reply by reply; without a token, what the token endpoint said. */
  predicate Settles(max: int, turn: Turn, k: nat, try: Try, result: Result) {
    if try.NoToken? then
      !turn.refresh.Granted? && result == if turn.refresh.Denied? then AuthenticationError else Uncaught
    else
      match turn.reply
      case Ok(body) => result == Response(body)
      case RateLimited(reset) => result == RateLimitError(reset)
      case Unauthorized => result == AuthenticationError && k > 0
      case Transient => result == ClientError(k) && k >= max
      case Fatal => result == Uncaught
  }

  /**
    Whatever the server does: each attempt but the last was sent and met a 401, as
    the first, or a transient failure before the retries ran out; and the result
    is the one its last reply calls for.
  */
  lemma ResultIsOfLastReply(max: int, server: Server, s: Session)
    ensures var (after, result) := Request(max, server, s, 0);
      && |after.tries| > |s.tries|
      && var tries := after.tries[|s.tries|..];
         && (forall k :: 0 <= k < |tries| - 1 ==> IsRetried(max, server(k), k, tries[k]))
         && Settles(max, server(|tries| - 1), |tries| - 1, tries[|tries| - 1], result)
  {
    CallFrom(max, server, s, 0);
    var tries := Request(max, server, s, 0).0.tries[|s.tries|..];
    forall k | 0 <= k < |tries| - 1 ensures IsRetried(max, server(k), k, tries[k]) {
      assert EarnsRetry(max, server, 0 + k, tries[k]);
    }
  }

  predicate IsRetried(max: int, turn: Turn, k: nat, try: Try) {
    try.Sent? && ((k == 0 && turn.reply.Unauthorized?) || (k < max && turn.reply.Transient?))
  }

  // ---------- the tokens ----------

  /** A token and its expiry. */
  type Held = (Option<string>, Option<int>)

  /** The token serves until a minute before its expiry. */
  predicate StillServes(held: Held, now: int) {
    held.0.Some? && held.1.Some? && now < held.1.value - 60
  }

  /** What an attempt carries: the token held while it serves, else one granted on the spot. */
  function TryOf(held: Held, turn: Turn): Try {
    if StillServes(held, turn.now) then Sent(held.0.value)
    else if turn.refresh.Granted? then Sent(turn.refresh.token) else NoToken
  }

  /** What is held during the attempt. */
  function Used(held: Held, turn: Turn): Held {
    if StillServes(held, turn.now) || !turn.refresh.Granted? then held
    else (Some(turn.refresh.token), Some(turn.now + turn.refresh.expiresIn))
  }

  /** And before the next one: a token that was refused is dropped. */
  function HeldAfter(held: Held, turn: Turn): Held {
    if turn.reply.Unauthorized? then (None, Used(held, turn).1) else Used(held, turn)
  }

  /** What is held before the attempt `k` places on. */
  function HeldBefore(server: Server, held: Held, retry: nat, k: nat): Held
    decreases k
  {
    if k == 0 then held else HeldBefore(server, HeldAfter(held, server(retry)), retry + 1, k - 1)
  }

  lemma SendingTries(s: Session, turn: Turn)
    ensures HasToken(s, turn) ==>
      && Sending(s, turn).tries == s.tries + [TryOf((s.token, s.expiry), turn)]
      && (Sending(s, turn).token, Sending(s, turn).expiry) == Used((s.token, s.expiry), turn)
    ensures !HasToken(s, turn) ==>
      TryOf((s.token, s.expiry), turn) == NoToken && Used((s.token, s.expiry), turn) == (s.token, s.expiry)
  {
  }

  /** A call is one attempt, after which it ends or goes on as a call with one retry more. */
  lemma OneAttempt(max: int, server: Server, s: Session, retry: nat) returns (next: Session, ends: bool)
    requires retry <= Max(max, 1)
    ensures next.tries == s.tries + [TryOf((s.token, s.expiry), server(retry))]
    ensures ends ==>
      Request(max, server, s, retry).0 == next
      && (next.token, next.expiry) == Used((s.token, s.expiry), server(retry))
    ensures !ends ==>
      && retry + 1 <= Max(max, 1) && Request(max, server, s, retry) == Request(max, server, next, retry + 1)
      && (next.token, next.expiry) == HeldAfter((s.token, s.expiry), server(retry))
  {
    var turn := server(retry);
    SendingTries(s, turn);
    ends := !HasToken(s, turn) || !Retries(max, turn.reply, retry);
    next := if !HasToken(s, turn) then s.(tries := s.tries + [NoToken])
            else if ends then Sending(s, turn) else Prepared(Sending(s, turn), turn.reply, retry);
  }

  lemma FirstAttempt(max: int, server: Server, s: Session, retry: nat)
    requires retry <= Max(max, 1)
    ensures Attempts(s, Request(max, server, s, retry).0) > 0
    ensures Request(max, server, s, retry).0.tries[|s.tries|] == TryOf((s.token, s.expiry), server(retry))
  {
    var next, ends := OneAttempt(max, server, s, retry);
    if !ends {
      CallFrom(max, server, next, retry + 1);
    }
    PrefixAt(next.tries, Request(max, server, s, retry).0.tries, |s.tries|);
  }

  lemma PrefixAt<T>(a: seq<T>, b: seq<T>, i: nat)
    requires a <= b && i < |a|
    ensures b[i] == a[i]
  {
  }

  lemma {:induction false} AttemptsFrom(max: int, server: Server, s: Session, retry: nat, k: nat)
    requires retry <= Max(max, 1) && k < Attempts(s, Request(max, server, s, retry).0)
    ensures Request(max, server, s, retry).0.tries[|s.tries| + k] ==
            TryOf(HeldBefore(server, (s.token, s.expiry), retry, k), server(retry + k))
    decreases k
  {
    if k == 0 {
      FirstAttempt(max, server, s, retry);
    } else {
      var next, ends := OneAttempt(max, server, s, retry);
      AttemptsFrom(max, server, next, retry + 1, k - 1);
    }
  }

  lemma {:induction false} HeldAtEnd(max: int, server: Server, s: Session, retry: nat)
    requires retry <= Max(max, 1)
    ensures var after := Request(max, server, s, retry).0;
      var n := Attempts(s, after);
      && n > 0
      && (after.token, after.expiry) ==
         Used(HeldBefore(server, (s.token, s.expiry), retry, n - 1), server(retry + n - 1))
    decreases Max(max, 1) - retry
  {
    var next, ends := OneAttempt(max, server, s, retry);
    if !ends {
      HeldAtEnd(max, server, next, retry + 1);
    }
  }

  /** The client is left with the token of its last attempt, refused or not; only a first one refused is dropped. */
  lemma CallLeavesToken(max: int, server: Server, s: Session)
    ensures var after := Request(max, server, s, 0).0;
      var n := Attempts(s, after);
      && n > 0
      && (after.token, after.expiry) == Used(HeldBefore(server, (s.token, s.expiry), 0, n - 1), server(n - 1))
  {
    HeldAtEnd(max, server, s, 0);
  }

  /** Every attempt carries exactly the token held then, if it serves for another minute, or else one granted for it. */
  lemma AttemptsCarryTokens(max: int, server: Server, s: Session, k: nat)
    requires k < Attempts(s, Request(max, server, s, 0).0)
    ensures Request(max, server, s, 0).0.tries[|s.tries| + k] ==
            TryOf(HeldBefore(server, (s.token, s.expiry), 0, k), server(k))
  {
    AttemptsFrom(max, server, s, 0, k);
  }

  /** The token was granted in an earlier turn of the call and has more than a minute left. */
  ghost predicate GrantedBefore(server: Server, retry: nat, k: nat, token: string, expiry: int) {
    exists j: nat :: retry <= j < retry + k && GrantedIn(server(j), token, expiry)
  }

  predicate GrantedIn(turn: Turn, token: string, expiry: int) {
    turn.refresh == Granted(token, expiry - turn.now)
  }

  lemma {:induction false} HeldWasGranted(server: Server, held: Held, retry: nat, k: nat)
    ensures var later := HeldBefore(server, held, retry, k);
      later.0.Some? && later.1.Some? ==>
        later == held || GrantedBefore(server, retry, k, later.0.value, later.1.value)
    decreases k
  {
    if k == 0 {
    } else {
      var next, later := HeldAfter(held, server(retry)), HeldBefore(server, held, retry, k);
      HeldWasGranted(server, next, retry + 1, k - 1);
      if later.0.Some? && later.1.Some? && later != held {
        if later == next {
          assert GrantedIn(server(retry), later.0.value, later.1.value);
        } else {
          var j: nat :| retry + 1 <= j < retry + k && GrantedIn(server(j), later.0.value, later.1.value);
        }
      }
    }
  }

  /**
    So a token sent was granted in that turn, or has more than a minute left and
    was granted in an earlier turn or held before the call.
  */
  lemma SentTokenIsFresh(max: int, server: Server, s: Session, k: nat)
    requires k < Attempts(s, Request(max, server, s, 0).0)
    requires Request(max, server, s, 0).0.tries[|s.tries| + k].Sent?
    ensures var token := Request(max, server, s, 0).0.tries[|s.tries| + k].token;
      || (server(k).refresh.Granted? && token == server(k).refresh.token)
      || (s.token == Some(token) && s.expiry.Some? && server(k).now < s.expiry.value - 60)
      || (exists expiry :: server(k).now < expiry - 60 && GrantedBefore(server, 0, k, token, expiry))
  {
    AttemptsCarryTokens(max, server, s, k);
    HeldWasGranted(server, (s.token, s.expiry), 0, k);
    var held := HeldBefore(server, (s.token, s.expiry), 0, k);
    if StillServes(held, server(k).now) && held != (s.token, s.expiry) {
      assert GrantedBefore(server, 0, k, held.0.value, held.1.value);
    }
  }

  /** The bounds are met: a server that always fails is asked maxRetries + 1 times, and slept over for all of it. */
  lemma FailingServerExhausts(max: int, server: Server, s: Session)
    requires forall k :: server(k).refresh.Granted? && server(k).reply.Transient?
    ensures var (after, result) := Request(max, server, s, 0);
      && Attempts(s, after) == Max(max, 0) + 1
      && result == ClientError(Max(max, 0))
      && after.slept - s.slept == Pow2(Max(max, 0)) - 1
  {
    RetriesAreBounded(max, server, s);
    var tries := Request(max, server, s, 0).0.tries[|s.tries|..];
    if |tries| > 1 {
      assert EarnsRetry(max, server, 0 + (|tries| - 2), tries[|tries| - 2]);
    }
  }

  /** A 401 first, and even a client configured for no retries asks twice. */
  lemma UnauthorizedFirstAddsOne(max: int, server: Server, s: Session)
    requires max <= 1 && server(0).reply.Unauthorized? && server(1).reply.Transient?
    requires forall k :: server(k).refresh.Granted?
    ensures var (after, result) := Request(max, server, s, 0);
      Attempts(s, after) == 2 && result == ClientError(1) && after.slept == s.slept
  {
    RetriesAreBounded(max, server, s);
  }

  /** The request repeated after a 401 carries the token granted for it, or is not sent. */
  lemma RepeatedWithFreshToken(max: int, server: Server, s: Session)
    requires Attempts(s, Request(max, server, s, 0).0) >= 2 && server(0).reply.Unauthorized?
    ensures var second := Request(max, server, s, 0).0.tries[|s.tries| + 1];
      second == if server(1).refresh.Granted? then Sent(server(1).refresh.token) else NoToken
  {
    CallFrom(max, server, s, 0);
    var s1 := Sending(s, server(0));
    var s2 := Prepared(s1, server(0).reply, 0);
    assert Request(max, server, s, 0) == Request(max, server, s2, 1);
    if server(1).refresh.Granted? && Retries(max, server(1).reply, 1) {
      var s3 := Prepared(Sending(s2, server(1)), server(1).reply, 1);
      CallFrom(max, server, s3, 2);
    }
  }
}

module NccIntegration {
  import opened Basics
  import opened RetryPolicy

  class AtrsClient {
    const maxRetries: int
    var token: Option<string>
    var tokenExpiry: Option<int>
    /** Every attempt made, and the seconds spent sleeping between them. */
    var tries: seq<Try>
    var slept: nat

    function View(): Session
      reads this
    {
      Session(token, tokenExpiry, tries, slept)
    }

    constructor (maxRetries: int)
      ensures View() == Session(None, None, [], 0) && this.maxRetries == maxRetries
    {
      this.maxRetries := maxRetries;
      token, tokenExpiry, tries, slept := None, None, [], 0;
    }

    method IsTokenExpired(now: int) returns (expired: bool)
      ensures expired == Expired(View(), now)
    {
      if token.None? || tokenExpiry.None? {
        return true;
      }
      return now >= tokenExpiry.value - 60;
    }

    method RefreshToken(turn: Turn) returns (error: Option<Result>)
      modifies this`token, this`tokenExpiry
      ensures error == match turn.refresh
                       case Granted(_, _) => None
                       case Denied => Some(AuthenticationError)
                       case Broken => Some(Uncaught)
      ensures turn.refresh.Granted? ==>
        token == Some(turn.refresh.token) && tokenExpiry == Some(turn.now + turn.refresh.expiresIn)
      ensures !turn.refresh.Granted? ==> unchanged(this)
    {
      match turn.refresh
      case Granted(granted, expiresIn) =>
        token, tokenExpiry := Some(granted), Some(turn.now + expiresIn);
        error := None;
      case Denied => error := Some(AuthenticationError);
      case Broken => error := Some(Uncaught);
    }

    method Send(server: Server, retryCount: nat) returns (result: Result)
      requires retryCount <= Max(maxRetries, 1)
      modifies this
      ensures (View(), result) == Request(maxRetries, server, old(View()), retryCount)
      decreases Max(maxRetries, 1) - retryCount
    {
      var turn := server(retryCount);
      var expired := IsTokenExpired(turn.now);
      if expired {
        var error := RefreshToken(turn);
        if error.Some? {
          tries := tries + [NoToken];
          return error.value;
        }
      }
      tries := tries + [Sent(token.value)];
      match turn.reply
      case RateLimited(reset) => return RateLimitError(reset);
      case Unauthorized =>
        if retryCount == 0 {
          token := None;
          result := Send(server, retryCount + 1);
          return;
        }
        return AuthenticationError;
      case Ok(body) => return Response(body);
      case Transient =>
        if retryCount < maxRetries {
          slept := slept + Pow2(retryCount);
          result := Send(server, retryCount + 1);
          return;
        }
        return ClientError(retryCount);
      case Fatal => return Uncaught;
    }
  }
}
