/** The database the sign-in services write to. Every operation of a Writer is
    one SQL statement inside the open transaction and may fail. */
module HubDatabase {
  import opened HubTables

  class Database {
    const emails: map<string, UserId>
    var accounts: map<UserId, Account>
    var challenges: map<Token, Challenge>
    var refreshTokens: seq<Session>
    var hubSessions: seq<Session>
    var audit: seq<AuditEvent>

    function Contents(): Tables
      reads this
    {
      Tables(emails, accounts, challenges, refreshTokens, hubSessions, audit)
    }

    constructor (emails: map<string, UserId>, accounts: map<UserId, Account>)
      ensures Contents() == Tables(emails, accounts, map[], [], [], [])
    {
      this.emails, this.accounts := emails, accounts;
      challenges, refreshTokens, hubSessions, audit := map[], [], [], [];
    }

    /** Leaves the database as the transaction found it. */
    method Rollback(saved: Tables)
      requires saved.emails == emails
      modifies this
      ensures Contents() == saved
    {
      accounts, challenges := saved.accounts, saved.challenges;
      refreshTokens, hubSessions, audit := saved.refreshTokens, saved.hubSessions, saved.audit;
    }

    method InsertAuditEvent(event: AuditEvent, faults: set<Call>) returns (ok: bool)
      modifies this`audit
      ensures ok == (InsertAudit(event.action) !in faults)
      ensures audit == if ok then old(audit) + [event] else old(audit)
    {
      ok := InsertAudit(event.action) !in faults;
      if ok {
        audit := audit + [event];
      }
    }

    method LockLoginUser(user: UserId, until: int, faults: set<Call>) returns (ok: bool)
      modifies this`accounts
      ensures ok == (LockUser !in faults)
      ensures accounts == if ok then WithLock(old(accounts), user, until) else old(accounts)
    {
      ok := LockUser !in faults;
      if ok && user in accounts && accounts[user].status == Active {
        accounts := accounts[user := accounts[user].(status := Locked, lockedUntil := Some(until))];
      }
    }

    method UnlockLoginUser(user: UserId, faults: set<Call>) returns (ok: bool)
      modifies this`accounts
      ensures ok == (UnlockUser !in faults)
      ensures accounts == if ok then WithoutLock(old(accounts), user) else old(accounts)
    {
      ok := UnlockUser !in faults;
      if ok && user in accounts && accounts[user].status == Locked {
        accounts := accounts[user := accounts[user].(status := Active, lockedUntil := None)];
      }
    }

    method UpdatePasswordHash(user: UserId, hash: PasswordHash, faults: set<Call>) returns (ok: bool)
      modifies this`accounts
      ensures ok == (UpdateHash !in faults)
      ensures accounts == if ok && user in old(accounts) then old(accounts)[user := old(accounts)[user].(password := hash)] else old(accounts)
    {
      ok := UpdateHash !in faults;
      if ok && user in accounts {
        accounts := accounts[user := accounts[user].(password := hash)];
      }
    }

    method SetLastLogin(user: UserId, at: int, faults: set<Call>) returns (ok: bool)
      modifies this`accounts
      ensures ok == (UpdateLastLogin !in faults)
      ensures accounts == if ok && user in old(accounts)
                          then old(accounts)[user := old(accounts)[user].(lastLoginAt := Some(at))]
                          else old(accounts)
    {
      ok := UpdateLastLogin !in faults;
      if ok && user in accounts {
        accounts := accounts[user := accounts[user].(lastLoginAt := Some(at))];
      }
    }

    method SupersedeOpenChallenges(user: UserId, faults: set<Call>) returns (ok: bool)
      modifies this`challenges
      ensures ok == (Supersede !in faults)
      ensures challenges == if ok then Superseded(old(challenges), user) else old(challenges)
    {
      ok := Supersede !in faults;
      if ok {
        challenges := Superseded(challenges, user);
      }
    }

    method InsertChallenge(token: Token, row: Challenge, faults: set<Call>) returns (ok: bool)
      modifies this`challenges
      ensures ok == (CreateChallenge !in faults && token !in old(challenges))
      ensures challenges == if ok then old(challenges)[token := row] else old(challenges)
    {
      ok := CreateChallenge !in faults && token !in challenges;
      if ok {
        challenges := challenges[token := row];
      }
    }

    method RemoveChallenge(token: Token, faults: set<Call>) returns (ok: bool)
      modifies this`challenges
      ensures ok == (DeleteChallenge !in faults)
      ensures challenges == if ok then old(challenges) - {token} else old(challenges)
    {
      ok := DeleteChallenge !in faults;
      if ok {
        challenges := challenges - {token};
      }
    }

    method Consume(token: Token, faults: set<Call>) returns (ok: bool)
      requires token in challenges
      modifies this`challenges
      ensures ok == (ConsumeChallenge !in faults)
      ensures challenges == if ok then old(challenges)[token := Consumed(old(challenges)[token])] else old(challenges)
    {
      ok := ConsumeChallenge !in faults;
      if ok {
        challenges := challenges[token := challenges[token].(used := true)];
      }
    }

    /** Spends one attempt and reports how many remain; no row matching is an error. */
    method Reject(token: Token, faults: set<Call>) returns (ok: bool, remaining: nat)
      requires token in challenges
      modifies this`challenges
      ensures ok == (RejectChallenge !in faults && !old(challenges)[token].used && 0 < old(challenges)[token].attemptsLeft)
      ensures challenges == if ok then old(challenges)[token := Spent(old(challenges)[token])] else old(challenges)
      ensures ok ==> remaining == challenges[token].attemptsLeft
    {
      var row := challenges[token];
      ok := RejectChallenge !in faults && !row.used && 0 < row.attemptsLeft;
      remaining := row.attemptsLeft;
      if ok {
        remaining := row.attemptsLeft - 1;
        challenges := challenges[token := row.(attemptsLeft := remaining, used := remaining == 0)];
      }
    }

    method StoreResend(token: Token, code: CodeHash, sentAt: int, faults: set<Call>) returns (ok: bool)
      requires token in challenges
      modifies this`challenges
      ensures ok == (ResendChallenge !in faults)
      ensures challenges == if ok then old(challenges)[token := Resent(old(challenges)[token], code, sentAt)]
                            else old(challenges)
    {
      ok := ResendChallenge !in faults;
      if ok && !challenges[token].used {
        challenges := challenges[token := challenges[token].(code := code, lastSentAt := sentAt)];
      }
    }

    /** The compare-and-set that undoes one resend; matching no row is not an error. */
    method RestoreResendRow(token: Token, code: CodeHash, sentAt: int, previousCode: CodeHash, previousSentAt: int,
                            faults: set<Call>)
      returns (ok: bool)
      modifies this`challenges
      ensures ok == (RestoreResend !in faults)
      ensures challenges ==
              if ok && token in old(challenges)
              then old(challenges)[token := Restored(old(challenges)[token], code, sentAt, previousCode, previousSentAt)]
              else old(challenges)
    {
      ok := RestoreResend !in faults;
      if ok && token in challenges && HoldsResend(challenges[token], code, sentAt) {
        challenges := challenges[token := challenges[token].(code := previousCode, lastSentAt := previousSentAt)];
      }
    }

    method InsertRefreshToken(session: Session, faults: set<Call>) returns (ok: bool)
      modifies this`refreshTokens
      ensures ok == (CreateRefreshToken !in faults)
      ensures refreshTokens == if ok then old(refreshTokens) + [session] else old(refreshTokens)
    {
      ok := CreateRefreshToken !in faults;
      if ok {
        refreshTokens := refreshTokens + [session];
      }
    }

    method InsertHubSession(session: Session, faults: set<Call>) returns (ok: bool)
      modifies this`hubSessions
      ensures ok == (CreateHubSession !in faults)
      ensures hubSessions == if ok then old(hubSessions) + [session] else old(hubSessions)
    {
      ok := CreateHubSession !in faults;
      if ok {
        hubSessions := hubSessions + [session];
      }
    }
  }
}
