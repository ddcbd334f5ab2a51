/** The limiter's calls on its table of rows, each a locked read and rewrite of one row. */
module RateLimitService {
  import opened Wrappers
  import opened RateLimit
  import opened RateLimitDecisions

  /** Row keys: the digest of a dimension and a value, which never collide. */
  datatype Key =
    | CredentialKey(workspaceId: string, credentialId: string)
    | FailedSourceKey(ip: string)
    | StepUpUserKey(userId: string)
    | StepUpSourceKey(ip: string)

  class RateLimits {
    var rows: map<Key, LimitRow>

    constructor ()
      ensures rows == map[]
    {
      rows := map[];
    }

    function RowOf(key: Key): Option<LimitRow>
      reads this
    {
      if key in rows then Some(rows[key]) else None
    }

    /** Insert the row if it is missing; from here to the commit the caller owns it. */
    method OpenRow(key: Key, now: int)
      modifies this
      ensures rows == old(rows)[key := Opened(old(RowOf(key)), now)]
    {
      if key !in rows {
        rows := rows[key := LimitRow([], [], None, now)];
      }
    }

    /** The two coupled budgets of a credential; None is acceptance, Some the Retry-After seconds. */
    method ConsumeCredential(workspaceId: string, credentialId: string, now: int, mutation: bool) returns (retryAfter: Option<int>)
      modifies this
      ensures var key := CredentialKey(workspaceId, credentialId);
              var (row, until) := Consume(Credential, old(RowOf(key)), now, mutation);
              && rows == old(rows)[key := row]
              && retryAfter == (if until.Some? then Some(RemainingSeconds(until.value, now)) else None)
      ensures var row := old(RowOf(CredentialKey(workspaceId, credentialId)));
              retryAfter.None? <==> CountFrom(Requests(row), now - 59_999) < 120 && (mutation ==> CountFrom(Mutations(row), now - 59_999) < 60)
    {
      hide Rolling, ExpiresFirst, RemainingSeconds, CountFrom;
      var key := CredentialKey(workspaceId, credentialId);
      CredentialCall(RowOf(key), now, mutation, now);
      OpenRow(key, now);
      var state := rows[key];
      var requests := Rolling(state.requests, now, REQUEST_WINDOW_MS);
      var mutations := Rolling(state.mutations, now, REQUEST_WINDOW_MS);
      var until: Option<int> := None;
      if |requests| >= CREDENTIAL_REQUEST_LIMIT {
        until := Some(ExpiresFirst(requests, REQUEST_WINDOW_MS));
      }
      if mutation && |mutations| >= CREDENTIAL_MUTATION_LIMIT {
        var mutationUntil := ExpiresFirst(mutations, REQUEST_WINDOW_MS);
        if until.None? || mutationUntil > until.value {
          until := Some(mutationUntil);
        }
      }
      if |requests| < CREDENTIAL_REQUEST_LIMIT {
        requests := requests + [now];
      }
      if until.None? && mutation {
        mutations := mutations + [now];
      }
      rows := rows[key := LimitRow(requests, mutations, None, now + REQUEST_WINDOW_MS)];
      retryAfter := if until.Some? then Some(RemainingSeconds(until.value, now)) else None;
    }

    /** Whether a source is blocked right now, without touching its row. */
    method AssertSourceAllowed(ip: string, now: int) returns (retryAfter: Option<int>)
      ensures retryAfter.Some? <==> ActiveBlock(RowOf(FailedSourceKey(ip)), now).Some?
      ensures retryAfter.Some? ==> retryAfter.value == RemainingSeconds(ActiveBlock(RowOf(FailedSourceKey(ip)), now).value, now)
    {
      var key := FailedSourceKey(ip);
      if key in rows && rows[key].blockedUntil.Some? && rows[key].blockedUntil.value > now {
        return Some(RemainingSeconds(rows[key].blockedUntil.value, now));
      }
      return None;
    }

    method ConsumeFailedAuthentication(ip: string, now: int) returns (retryAfter: Option<int>)
      modifies this
      ensures var key := FailedSourceKey(ip);
              var (row, until) := Consume(FailedAuthentication, old(RowOf(key)), now, false);
              && rows == old(rows)[key := row]
              && retryAfter == (if until.Some? then Some(RemainingSeconds(until.value, now)) else None)
      ensures var row := old(RowOf(FailedSourceKey(ip)));
              retryAfter.None? <==> ActiveBlock(row, now).None? && CountFrom(Requests(row), now - 299_999) < 19
    {
      hide Rolling, RemainingSeconds, CountFrom;
      var key := FailedSourceKey(ip);
      FailureCall(RowOf(key), now, false, now, now);
      OpenRow(key, now);
      var state := rows[key];
      if state.blockedUntil.Some? && state.blockedUntil.value > now {
        return Some(RemainingSeconds(state.blockedUntil.value, now));
      }
      var requests := Rolling(state.requests, now, AUTH_FAILURE_WINDOW_MS);
      var blockedUntil: Option<int> := None;
      if |requests| + 1 >= SOURCE_FAILURE_LIMIT {
        blockedUntil := Some(now + SOURCE_BLOCK_MS);
      } else {
        requests := requests + [now];
      }
      var expiresAt := if blockedUntil.Some? then blockedUntil.value else now + AUTH_FAILURE_WINDOW_MS;
      rows := rows[key := LimitRow(requests, [], blockedUntil, expiresAt)];
      retryAfter := if blockedUntil.Some? then Some(RemainingSeconds(blockedUntil.value, now)) else None;
    }

    /** One budget of the loop below, charged under its own row lock. */
    method ChargeStepUp(key: Key, limit: nat, now: int) returns (retryAfter: Option<int>)
      requires limit > 0
      modifies this
      ensures var (row, until) := Consume(StepUp(limit), old(RowOf(key)), now, false);
              && rows == old(rows)[key := row]
              && retryAfter == (if until.Some? then Some(RemainingSeconds(until.value, now)) else None)
      ensures retryAfter.None? <==> CountFrom(Requests(old(RowOf(key))), now - 899_999) < limit
    {
      hide Rolling, ExpiresFirst, RemainingSeconds, CountFrom;
      StepUpCall(RowOf(key), now, false, limit, now);
      OpenRow(key, now);
      var requests := Rolling(rows[key].requests, now, MANAGEMENT_STEP_UP_WINDOW_MS);
      var until: Option<int> := None;
      if |requests| >= limit {
        until := Some(ExpiresFirst(requests, MANAGEMENT_STEP_UP_WINDOW_MS));
      } else {
        requests := requests + [now];
      }
      rows := rows[key := LimitRow(requests, [], None, now + MANAGEMENT_STEP_UP_WINDOW_MS)];
      retryAfter := if until.Some? then Some(RemainingSeconds(until.value, now)) else None;
    }

    /**
     The user's budget first, then the source's, each with the clock read under its own row lock. A call the source's
     budget rejects has already been charged to the user; a call the user's budget rejects never reaches the source.
     */
    method ConsumeManagementStepUp(userId: string, ip: string, userNow: int, sourceNow: int) returns (retryAfter: Option<int>)
      modifies this
      ensures var userKey, sourceKey := StepUpUserKey(userId), StepUpSourceKey(ip);
              var (userRow, userUntil) := Consume(StepUp(5), old(RowOf(userKey)), userNow, false);
              var (sourceRow, sourceUntil) := Consume(StepUp(20), old(RowOf(sourceKey)), sourceNow, false);
              if userUntil.Some? then
                rows == old(rows)[userKey := userRow] && retryAfter == Some(RemainingSeconds(userUntil.value, userNow))
              else
                rows == old(rows)[userKey := userRow][sourceKey := sourceRow]
                && retryAfter == (if sourceUntil.Some? then Some(RemainingSeconds(sourceUntil.value, sourceNow)) else None)
      ensures retryAfter.None? <==>
                && CountFrom(Requests(old(RowOf(StepUpUserKey(userId)))), userNow - 899_999) < 5
                && CountFrom(Requests(old(RowOf(StepUpSourceKey(ip)))), sourceNow - 899_999) < 20
    {
      hide Consume, RemainingSeconds, CountFrom;
      var budgets := [(StepUpUserKey(userId), MANAGEMENT_USER_ATTEMPT_LIMIT), (StepUpSourceKey(ip), MANAGEMENT_SOURCE_ATTEMPT_LIMIT)];
      var clocks := [userNow, sourceNow];
      var i := 0;
      ghost var user := Consume(StepUp(5), RowOf(StepUpUserKey(userId)), userNow, false);
      while i < |budgets|
        invariant 0 <= i <= 2
        invariant i == 0 ==> rows == old(rows)
        invariant i >= 1 ==> user.1.None? && CountFrom(Requests(old(RowOf(StepUpUserKey(userId)))), userNow - 899_999) < 5
        invariant i == 1 ==> rows == old(rows)[StepUpUserKey(userId) := user.0]
        invariant i == 2 ==>
                    var source := Consume(StepUp(20), old(RowOf(StepUpSourceKey(ip))), sourceNow, false);
                    rows == old(rows)[StepUpUserKey(userId) := user.0][StepUpSourceKey(ip) := source.0] && source.1.None?
                    && CountFrom(Requests(old(RowOf(StepUpSourceKey(ip)))), sourceNow - 899_999) < 20
      {
        var (key, limit) := budgets[i];
        retryAfter := ChargeStepUp(key, limit, clocks[i]);
        if retryAfter.Some? {
          return;
        }
        i := i + 1;
      }
      return None;
    }

    /** The minute-by-minute cleanup. */
    method CleanupExpired(now: int) returns (count: nat)
      modifies this
      ensures rows == map key | key in old(rows) && !Collectable(old(rows)[key], now) :: old(rows)[key]
      ensures forall key :: RowOf(key) == (if old(RowOf(key)).Some? then Step(Credential, old(RowOf(key)), Cleanup(now)) else None)
      ensures count == |set key | key in old(rows) && Collectable(old(rows)[key], now)|
    {
      var expired := set key | key in rows && Collectable(rows[key], now);
      rows := rows - expired;
      count := |expired|;
    }
  }
}
