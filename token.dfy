/**
 * The one-time token tables of models/Token.php: `email_verifications`
 * (single use, 24 hours) and `password_resets` (one hour, marked used).
 * Each table is a map from the token to its row; `random_bytes(32)` and
 * `NOW()` are parameters of the operations that use them.
 */
module Tokens {
  import opened Optional

  type Byte = x: int | 0 <= x < 256

  /** strtotime('+24 hours') and strtotime('+1 hour'), in seconds after now. */
  const VerificationLifetime: int := 86400
  const ResetLifetime: int := 3600
  /** random_bytes(32) */
  const TokenBytes: nat := 32

  // ---------------------------------------------------------------------
  // bin2hex
  // ---------------------------------------------------------------------

  predicate IsLowerHex(c: char)
  {
    '0' <= c <= '9' || 'a' <= c <= 'f'
  }

  function HexDigit(n: int): (c: char)
    requires 0 <= n < 16
    ensures IsLowerHex(c)
  {
    if n < 10 then ('0' as int + n) as char else ('a' as int + n - 10) as char
  }

  function HexValue(c: char): (n: int)
    requires IsLowerHex(c)
    ensures 0 <= n < 16
    ensures HexDigit(n) == c
  {
    if c <= '9' then c as int - '0' as int else c as int - 'a' as int + 10
  }

  lemma HexValueOfDigit(n: int)
    requires 0 <= n < 16
    ensures HexValue(HexDigit(n)) == n
  {
  }

  /** bin2hex(): two lower-case hex digits per byte, high nibble first. */
  function Bin2Hex(b: seq<Byte>): (r: string)
    ensures |r| == 2 * |b|
    ensures forall i | 0 <= i < |r| :: IsLowerHex(r[i])
  {
    if b == [] then [] else [HexDigit(b[0] / 16), HexDigit(b[0] % 16)] + Bin2Hex(b[1..])
  }

  predicate IsHexText(s: string)
  {
    |s| % 2 == 0 && forall i | 0 <= i < |s| :: IsLowerHex(s[i])
  }

  /** hex2bin() on lower-case hex text, the inverse used to state that bin2hex loses nothing. */
  function Hex2Bin(s: string): (r: seq<Byte>)
    requires IsHexText(s)
    ensures |r| * 2 == |s|
  {
    if s == [] then [] else [HexValue(s[0]) * 16 + HexValue(s[1])] + Hex2Bin(s[2..])
  }

  lemma {:induction false} Hex2BinBin2Hex(b: seq<Byte>)
    ensures IsHexText(Bin2Hex(b))
    ensures Hex2Bin(Bin2Hex(b)) == b
  {
    if b != [] {
      var s := Bin2Hex(b);
      HexValueOfDigit(b[0] / 16);
      HexValueOfDigit(b[0] % 16);
      assert s[2..] == Bin2Hex(b[1..]);
      Hex2BinBin2Hex(b[1..]);
    }
  }

  /** Distinct random bytes give distinct tokens. */
  lemma Bin2HexInjective(a: seq<Byte>, b: seq<Byte>)
    requires Bin2Hex(a) == Bin2Hex(b)
    ensures a == b
  {
    Hex2BinBin2Hex(a);
    Hex2BinBin2Hex(b);
  }

  /** bin2hex(random_bytes(32)): 64 lower-case hex characters. */
  function NewToken(random: seq<Byte>): (t: string)
    requires |random| == TokenBytes
    ensures |t| == 64 && IsHexText(t)
  {
    Bin2Hex(random)
  }

  // ---------------------------------------------------------------------
  // Rows and the transitions of each table
  // ---------------------------------------------------------------------

  datatype EmailVerification = EmailVerification(userId: int, expiresAt: int)

  /** `used` is the 0/1 column of password_resets; a new row has used = 0. */
  datatype PasswordReset = PasswordReset(userId: int, expiresAt: int, used: int)

  /** No user holds two rows of the same table. */
  predicate OneEmailTokenPerUser(m: map<string, EmailVerification>)
  {
    forall t, u | t in m && u in m && m[t].userId == m[u].userId :: t == u
  }

  predicate OneResetTokenPerUser(m: map<string, PasswordReset>)
  {
    forall t, u | t in m && u in m && m[t].userId == m[u].userId :: t == u
  }

  /** DELETE FROM email_verifications WHERE user_id = ? */
  function DropUserEmail(m: map<string, EmailVerification>, userId: int): map<string, EmailVerification>
  {
    map t | t in m && m[t].userId != userId :: m[t]
  }

  /** DELETE FROM password_resets WHERE user_id = ? */
  function DropUserReset(m: map<string, PasswordReset>, userId: int): map<string, PasswordReset>
  {
    map t | t in m && m[t].userId != userId :: m[t]
  }

  /** createVerificationToken: the user's old rows go, then the new row is inserted. */
  function IssueEmail(m: map<string, EmailVerification>, userId: int, token: string, now: int): map<string, EmailVerification>
  {
    DropUserEmail(m, userId)[token := EmailVerification(userId, now + VerificationLifetime)]
  }

  function IssueReset(m: map<string, PasswordReset>, userId: int, token: string, now: int): map<string, PasswordReset>
  {
    DropUserReset(m, userId)[token := PasswordReset(userId, now + ResetLifetime, 0)]
  }

  /** SELECT user_id FROM email_verifications WHERE token = ? AND expires_at > NOW() */
  function EmailOwner(m: map<string, EmailVerification>, token: string, now: int): Option<int>
  {
    if token in m && m[token].expiresAt > now then Some(m[token].userId) else None
  }

  /** SELECT user_id FROM password_resets WHERE token = ? AND expires_at > NOW() AND used = 0 */
  function ResetOwner(m: map<string, PasswordReset>, token: string, now: int): Option<int>
  {
    if token in m && m[token].expiresAt > now && m[token].used == 0 then Some(m[token].userId) else None
  }

  /** verifyEmailToken deletes the row when, and only when, it accepted it. */
  function ConsumeEmail(m: map<string, EmailVerification>, token: string, now: int): map<string, EmailVerification>
  {
    if EmailOwner(m, token, now).Some? then m - {token} else m
  }

  /** UPDATE password_resets SET used = 1 WHERE token = ? */
  function MarkUsed(m: map<string, PasswordReset>, token: string): map<string, PasswordReset>
  {
    if token in m then m[token := m[token].(used := 1)] else m
  }

  /** DELETE ... WHERE expires_at < NOW() */
  function CleanEmail(m: map<string, EmailVerification>, now: int): map<string, EmailVerification>
  {
    map t | t in m && m[t].expiresAt >= now :: m[t]
  }

  function CleanReset(m: map<string, PasswordReset>, now: int): map<string, PasswordReset>
  {
    map t | t in m && m[t].expiresAt >= now :: m[t]
  }

  // ---------------------------------------------------------------------
  // What the transitions promise
  // ---------------------------------------------------------------------

  /** After issuing, the new token is the user's only row, and other users' rows are untouched. */
  lemma IssueEmailReplaces(m: map<string, EmailVerification>, userId: int, token: string, now: int)
    ensures var r := IssueEmail(m, userId, token, now);
      && token in r && r[token] == EmailVerification(userId, now + VerificationLifetime)
      && (forall t | t in r && r[t].userId == userId :: t == token)
      && (forall t | t in m && t != token && m[t].userId != userId :: t in r && r[t] == m[t])
      && (forall t | t in r && t != token :: t in m && m[t].userId != userId)
  {
  }

  lemma IssueResetReplaces(m: map<string, PasswordReset>, userId: int, token: string, now: int)
    ensures var r := IssueReset(m, userId, token, now);
      && token in r && r[token] == PasswordReset(userId, now + ResetLifetime, 0)
      && (forall t | t in r && r[t].userId == userId :: t == token)
      && (forall t | t in m && t != token && m[t].userId != userId :: t in r && r[t] == m[t])
      && (forall t | t in r && t != token :: t in m && m[t].userId != userId)
  {
  }

  /** A freshly issued verification token is accepted, for its user, until 24 hours have passed. */
  lemma IssuedEmailVerifies(m: map<string, EmailVerification>, userId: int, random: seq<Byte>, now: int, later: int)
    requires |random| == TokenBytes
    ensures EmailOwner(IssueEmail(m, userId, NewToken(random), now), NewToken(random), later)
         == (if later < now + VerificationLifetime then Some(userId) else None)
  {
  }

  /** A reset token is accepted until one hour has passed. */
  lemma IssuedResetVerifies(m: map<string, PasswordReset>, userId: int, random: seq<Byte>, now: int, later: int)
    requires |random| == TokenBytes
    ensures ResetOwner(IssueReset(m, userId, NewToken(random), now), NewToken(random), later)
         == (if later < now + ResetLifetime then Some(userId) else None)
  {
  }

  /** The previous verification token of a user stops working once a new one is issued. */
  lemma ReissueRevokesEmail(m: map<string, EmailVerification>, userId: int, previous: string, token: string, now: int, later: int)
    requires previous != token
    requires EmailOwner(m, previous, later) == Some(userId)
    ensures EmailOwner(IssueEmail(m, userId, token, now), previous, later) == None
  {
  }

  lemma ReissueRevokesReset(m: map<string, PasswordReset>, userId: int, previous: string, token: string, now: int, later: int)
    requires previous != token
    requires ResetOwner(m, previous, later) == Some(userId)
    ensures ResetOwner(IssueReset(m, userId, token, now), previous, later) == None
  {
  }

  /** A verification token works once: after it is accepted, verifying it again fails at any time. */
  lemma EmailSingleUse(m: map<string, EmailVerification>, token: string, now: int, later: int)
    requires EmailOwner(m, token, now).Some?
    ensures EmailOwner(ConsumeEmail(m, token, now), token, later) == None
  {
  }

  /** A rejected verification leaves the table as it was. */
  lemma EmailRejectedUnchanged(m: map<string, EmailVerification>, token: string, now: int)
    requires EmailOwner(m, token, now).None?
    ensures ConsumeEmail(m, token, now) == m
  {
  }

  /** Once marked used, a reset token is never accepted again. */
  lemma MarkedResetRejected(m: map<string, PasswordReset>, token: string, later: int)
    ensures ResetOwner(MarkUsed(m, token), token, later) == None
  {
  }

  /** Marking one token used does not affect any other token. */
  lemma MarkUsedOthers(m: map<string, PasswordReset>, token: string, other: string, now: int)
    requires other != token
    ensures ResetOwner(MarkUsed(m, token), other, now) == ResetOwner(m, other, now)
  {
  }

  /** cleanupExpired keeps exactly the rows with expires_at >= now, unchanged. */
  lemma CleanupExact(e: map<string, EmailVerification>, p: map<string, PasswordReset>, now: int)
    ensures forall t :: t in CleanEmail(e, now) <==> t in e && e[t].expiresAt >= now
    ensures forall t | t in CleanEmail(e, now) :: CleanEmail(e, now)[t] == e[t]
    ensures forall t :: t in CleanReset(p, now) <==> t in p && p[t].expiresAt >= now
    ensures forall t | t in CleanReset(p, now) :: CleanReset(p, now)[t] == p[t]
  {
  }

  /**
   * Cleanup never changes a verdict from then on: every row it removes was
   * already rejected. A row expiring exactly now survives cleanup but is
   * rejected, because verification needs expires_at > now.
   */
  lemma CleanupKeepsVerdicts(e: map<string, EmailVerification>, p: map<string, PasswordReset>, now: int, later: int, token: string)
    requires later >= now
    ensures EmailOwner(CleanEmail(e, now), token, later) == EmailOwner(e, token, later)
    ensures ResetOwner(CleanReset(p, now), token, later) == ResetOwner(p, token, later)
  {
  }

  lemma IssueKeepsOnePerUser(e: map<string, EmailVerification>, p: map<string, PasswordReset>, userId: int, token: string, now: int)
    requires OneEmailTokenPerUser(e) && OneResetTokenPerUser(p)
    ensures OneEmailTokenPerUser(IssueEmail(e, userId, token, now))
    ensures OneResetTokenPerUser(IssueReset(p, userId, token, now))
  {
    IssueEmailReplaces(e, userId, token, now);
    IssueResetReplaces(p, userId, token, now);
  }

  lemma RemovalKeepsOnePerUser(e: map<string, EmailVerification>, p: map<string, PasswordReset>, token: string, now: int)
    requires OneEmailTokenPerUser(e) && OneResetTokenPerUser(p)
    ensures OneEmailTokenPerUser(ConsumeEmail(e, token, now)) && OneEmailTokenPerUser(CleanEmail(e, now))
    ensures OneResetTokenPerUser(MarkUsed(p, token)) && OneResetTokenPerUser(CleanReset(p, now))
  {
  }

  // ---------------------------------------------------------------------
  // The Token class
  // ---------------------------------------------------------------------

  class TokenStore {
    var emailVerifications: map<string, EmailVerification>
    var passwordResets: map<string, PasswordReset>

    /** Each user holds at most one token of each kind. */
    predicate Valid()
      reads this
    {
      OneEmailTokenPerUser(emailVerifications) && OneResetTokenPerUser(passwordResets)
    }

    constructor ()
      ensures Valid()
      ensures emailVerifications == map[] && passwordResets == map[]
    {
      emailVerifications := map[];
      passwordResets := map[];
    }

    method DeleteVerificationToken(token: string)
      requires Valid()
      modifies this
      ensures Valid()
      ensures emailVerifications == old(emailVerifications) - {token}
      ensures passwordResets == old(passwordResets)
    {
      emailVerifications := emailVerifications - {token};
    }

    method DeleteVerificationTokens(userId: int)
      requires Valid()
      modifies this
      ensures Valid()
      ensures emailVerifications == DropUserEmail(old(emailVerifications), userId)
      ensures passwordResets == old(passwordResets)
    {
      emailVerifications := DropUserEmail(emailVerifications, userId);
    }

    method DeletePasswordResetTokens(userId: int)
      requires Valid()
      modifies this
      ensures Valid()
      ensures passwordResets == DropUserReset(old(passwordResets), userId)
      ensures emailVerifications == old(emailVerifications)
    {
      passwordResets := DropUserReset(passwordResets, userId);
    }

    method CreateVerificationToken(userId: int, random: seq<Byte>, now: int) returns (token: string)
      requires Valid()
      requires |random| == TokenBytes
      modifies this
      ensures Valid()
      ensures token == NewToken(random) && |token| == 64
      ensures emailVerifications == IssueEmail(old(emailVerifications), userId, token, now)
      ensures passwordResets == old(passwordResets)
    {
      DeleteVerificationTokens(userId);
      token := NewToken(random);
      var expiresAt := now + VerificationLifetime;
      emailVerifications := emailVerifications[token := EmailVerification(userId, expiresAt)];
      IssueEmailReplaces(old(emailVerifications), userId, token, now);
    }

    method VerifyEmailToken(token: string, now: int) returns (userId: Option<int>)
      requires Valid()
      modifies this
      ensures Valid()
      ensures userId == EmailOwner(old(emailVerifications), token, now)
      ensures emailVerifications == ConsumeEmail(old(emailVerifications), token, now)
      ensures passwordResets == old(passwordResets)
    {
      if token in emailVerifications && emailVerifications[token].expiresAt > now {
        userId := Some(emailVerifications[token].userId);
      } else {
        return None;
      }
      DeleteVerificationToken(token);
    }

    method CreatePasswordResetToken(userId: int, random: seq<Byte>, now: int) returns (token: string)
      requires Valid()
      requires |random| == TokenBytes
      modifies this
      ensures Valid()
      ensures token == NewToken(random) && |token| == 64
      ensures passwordResets == IssueReset(old(passwordResets), userId, token, now)
      ensures emailVerifications == old(emailVerifications)
    {
      DeletePasswordResetTokens(userId);
      token := NewToken(random);
      var expiresAt := now + ResetLifetime;
      passwordResets := passwordResets[token := PasswordReset(userId, expiresAt, 0)];
      IssueResetReplaces(old(passwordResets), userId, token, now);
    }

    /** Reads only: the token stays valid until it is marked used or expires. */
    method VerifyPasswordResetToken(token: string, now: int) returns (userId: Option<int>)
      ensures userId == ResetOwner(passwordResets, token, now)
      ensures userId.Some? <==> token in passwordResets && passwordResets[token].expiresAt > now && passwordResets[token].used == 0
    {
      if token in passwordResets && passwordResets[token].expiresAt > now && passwordResets[token].used == 0 {
        userId := Some(passwordResets[token].userId);
      } else {
        userId := None;
      }
    }

    method MarkPasswordResetUsed(token: string)
      requires Valid()
      modifies this
      ensures Valid()
      ensures passwordResets == MarkUsed(old(passwordResets), token)
      ensures emailVerifications == old(emailVerifications)
    {
      if token in passwordResets {
        passwordResets := passwordResets[token := passwordResets[token].(used := 1)];
      }
    }

    method CleanupExpired(now: int)
      requires Valid()
      modifies this
      ensures Valid()
      ensures emailVerifications == CleanEmail(old(emailVerifications), now)
      ensures passwordResets == CleanReset(old(passwordResets), now)
    {
      emailVerifications := CleanEmail(emailVerifications, now);
      passwordResets := CleanReset(passwordResets, now);
    }
  }
}
