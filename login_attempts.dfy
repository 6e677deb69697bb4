/**
 * The login-attempt tracker and the lock transition applied on every
 * login lookup (validateLoginAttempt).
 */
module LoginAttempts {

  /**
   * LoginAttemptService, seen through the two calls the service makes: the
   * verdict "has exceeded the maximum attempts" and the eviction of a username.
   * `exceeded` holds the usernames whose verdict is currently true.
   */
  class LoginAttemptService {
    var exceeded: set<string>

    constructor (exceeded: set<string>)
      ensures this.exceeded == exceeded
    {
      this.exceeded := exceeded;
    }

    /** The tracker's verdict for the username; asking changes nothing. */
    method HasExceededMaxAttempts(username: string) returns (exceededMax: bool)
      ensures exceededMax <==> username in exceeded
    {
      exceededMax := username in exceeded;
    }

    method EvictUserFromCache(username: string)
      modifies this
      ensures exceeded == old(exceeded) - {username}
    {
      exceeded := exceeded - {username};
    }
  }

  /**
   * isNotLocked after one lookup, from isNotLocked before and the tracker's
   * verdict: an unlocked account locks exactly when the verdict is "exceeded";
   * a locked account stays locked whatever the verdict.
   */
  function NextNotLocked(notLocked: bool, exceeded: bool): bool {
    if notLocked then (if exceeded then false else true) else notLocked
  }

  /** isNotLocked after a series of lookups, given the verdict seen by each. */
  ghost function NotLockedAfter(notLocked: bool, verdicts: seq<bool>): bool
    decreases |verdicts|
  {
    if verdicts == [] then notLocked
    else NotLockedAfter(NextNotLocked(notLocked, verdicts[0]), verdicts[1..])
  }

  /** No series of lookups unlocks a locked account. */
  lemma {:induction false} LockedStaysLocked(verdicts: seq<bool>)
    ensures !NotLockedAfter(false, verdicts)
  {
    if verdicts != [] {
      LockedStaysLocked(verdicts[1..]);
    }
  }

  /** An unlocked account is still unlocked after a series of lookups exactly
      when no lookup saw the verdict "exceeded". */
  lemma {:induction false} UnlockedUntilExceeded(verdicts: seq<bool>)
    ensures NotLockedAfter(true, verdicts) <==> forall i :: 0 <= i < |verdicts| ==> !verdicts[i]
  {
    if verdicts != [] {
      if verdicts[0] {
        LockedStaysLocked(verdicts[1..]);
      } else {
        UnlockedUntilExceeded(verdicts[1..]);
        assert forall i :: 1 <= i < |verdicts| ==> verdicts[i] == verdicts[1..][i - 1];
      }
    }
  }
}
