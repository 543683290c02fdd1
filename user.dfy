/**
 * models/User.php: the `users` table with its login, payload and profile
 * rules, the `user_blocks` pairs, the `user_settings` JSON columns, and the
 * follow pairs and counters that blockUser touches. `password_verify` is the
 * parameter `passwordVerify`, `json_decode($s, true)` the parameter `dec`
 * (None for invalid JSON) and `json_encode` the parameter `enc`. Lookups by
 * username and email compare exactly.
 */
module Users {
  import opened Optional
  import opened Values
  import PhpStr
  import Follows
  import Jwt

  datatype UserRow = UserRow(
    username: string, email: string, passwordHash: string, name: string,
    role: string, avatar: Option<string>, isVerified: int, isBanned: int)

  /** No two rows share a username, and no two share an email. */
  predicate UniqueLogins(users: map<int, UserRow>)
  {
    && (forall i, j :: i in users && j in users && users[i].username == users[j].username ==> i == j)
    && (forall i, j :: i in users && j in users && users[i].email == users[j].email ==> i == j)
  }

  // ---------------------------------------------------------------------------
  // login and the token payload

  /** verifyPassword's three answers: false, 'banned', or the user's id. */
  datatype Login = Rejected | Banned | LoggedIn(id: int)

  /** verifyPassword on the row findByEmail found: the ban is checked before the password. */
  function LoginFor(id: int, row: UserRow, password: string, passwordVerify: (string, string) -> bool): (r: Login)
    ensures row.isBanned != 0 ==> r == Banned
    ensures r.LoggedIn? <==> row.isBanned == 0 && passwordVerify(password, row.passwordHash)
    ensures r.LoggedIn? ==> r.id == id
  {
    if row.isBanned != 0 then Banned
    else if passwordVerify(password, row.passwordHash) then LoggedIn(id)
    else Rejected
  }

  /** A banned user is told so whatever the password, so the ban cannot be used to test passwords. */
  lemma BanBeforePassword(id: int, row: UserRow, p: string, q: string, passwordVerify: (string, string) -> bool)
    requires row.isBanned != 0
    ensures LoginFor(id, row, p, passwordVerify) == LoginFor(id, row, q, passwordVerify) == Banned
  {
  }

  const PayloadKeys: set<string> := {"id", "username", "email", "name", "role", "avatar", "is_verified"}

  function NullableStr(s: Option<string>): Value
  {
    if s.Some? then Str(s.value) else Null
  }

  /** getAuthPayload on an existing row: the seven public columns, never the password hash. */
  function AuthPayload(id: int, row: UserRow): (r: map<string, Value>)
    ensures r.Keys == PayloadKeys && "password" !in r
    ensures r["id"] == Int(id) && r["role"] == Str(row.role)
  {
    map["id" := Int(id), "username" := Str(row.username), "email" := Str(row.email), "name" := Str(row.name),
        "role" := Str(row.role), "avatar" := NullableStr(row.avatar), "is_verified" := Int(row.isVerified)]
  }

  /**
   * A token made from the payload passes the admin guard exactly when the
   * user's role is 'admin': the payload carries no `is_admin`.
   */
  lemma PayloadAdmin(id: int, row: UserRow)
    ensures Jwt.IsAdmin(Obj(AuthPayload(id, row))) <==> row.role == "admin"
  {
    assert "is_admin" !in AuthPayload(id, row);
  }

  /** The payload as JWT::generate signs it: the seven columns with `iat` and `exp`, still no password. */
  lemma StampedPayload(id: int, row: UserRow, now: int)
    ensures Jwt.Stamp(AuthPayload(id, row), now).Keys == PayloadKeys + {"iat", "exp"}
    ensures "password" !in Jwt.Stamp(AuthPayload(id, row), now)
  {
  }

  // ---------------------------------------------------------------------------
  // settings with defaults

  const NotificationDefaults: map<string, Value> := map[
    "email_new_follower" := Bool(true), "email_new_message" := Bool(true),
    "email_post_comment" := Bool(true), "email_post_star" := Bool(false),
    "email_post_repost" := Bool(false), "push_enabled" := Bool(true)]

  const PrivacyDefaults: map<string, Value> := map[
    "show_email" := Bool(false), "allow_messages" := Bool(true), "show_activity" := Bool(true)]

  /**
   * The settings array: its string keys, and the values a stored JSON list
   * appends under integer keys, which array_merge renumbers from 0.
   */
  datatype Settings = Settings(named: map<string, Value>, positional: seq<Value>)

  /**
   * `if ($result) return array_merge($defaults, json_decode($result, true));
   * return $defaults;`: no row, a NULL column or a falsy string give the
   * defaults; JSON that does not decode to an array is a TypeError (None).
   */
  function WithDefaults(defaults: map<string, Value>, stored: Option<string>, dec: string -> Option<Value>): (r: Option<Settings>)
    ensures stored.None? || PhpStr.IsFalsy(stored.value) ==> r == Some(Settings(defaults, []))
    ensures r.None? <==> stored.Some? && !PhpStr.IsFalsy(stored.value) && (dec(stored.value).None? || !IsArray(dec(stored.value).value))
  {
    if stored.None? || PhpStr.IsFalsy(stored.value) then Some(Settings(defaults, []))
    else
      match dec(stored.value)
      case Some(Obj(fields)) => Some(Settings(defaults + fields, []))
      case Some(List(items)) => Some(Settings(defaults, items))
      case _ => None
  }

  /** Every default key is there, with the stored value when there is one; a stored key outside the defaults is kept too. */
  lemma WithDefaultsOverrides(defaults: map<string, Value>, stored: Option<string>, dec: string -> Option<Value>)
    requires WithDefaults(defaults, stored, dec).Some?
    ensures var r := WithDefaults(defaults, stored, dec).value;
      && (forall k :: k in defaults ==> k in r.named)
      && (forall k :: k in r.named && k !in defaults ==> stored.Some? && dec(stored.value).Some? && dec(stored.value).value.Obj?)
    ensures forall k :: k in defaults ==>
      WithDefaults(defaults, stored, dec).value.named[k] ==
        (if stored.Some? && !PhpStr.IsFalsy(stored.value) && dec(stored.value).Some? && dec(stored.value).value.Obj?
            && k in dec(stored.value).value.fields
         then dec(stored.value).value.fields[k] else defaults[k])
  {
  }

  /** What updateNotificationSettings stores is what getNotificationSettings merges afterwards. */
  lemma StoredSettingsReadBack(defaults: map<string, Value>, fields: map<string, Value>,
                               enc: Value -> string, dec: string -> Option<Value>)
    requires dec(enc(Obj(fields))) == Some(Obj(fields)) && !PhpStr.IsFalsy(enc(Obj(fields)))
    ensures WithDefaults(defaults, Some(enc(Obj(fields))), dec) == Some(Settings(defaults + fields, []))
  {
  }

  /** A `user_settings` row: the two JSON columns, each NULL until first written. */
  datatype SettingsRow = SettingsRow(notification: Option<string>, privacy: Option<string>)

  // ---------------------------------------------------------------------------
  // blocking

  /**
   * blockUser as written: both follow pairs are deleted, but the
   * `following_count` and `followers_count` columns are left as they were.
   */
  function BlockedAsWritten(follows: set<(int, int)>, counts: map<int, Follows.Counters>, a: int, b: int)
    : (r: (set<(int, int)>, map<int, Follows.Counters>))
    ensures forall p :: p in r.0 <==> p in follows && p != (a, b) && p != (b, a)
    ensures r.1 == counts
  {
    (follows - {(a, b), (b, a)}, counts)
  }

  /** The input that shows it: a follows b, then a blocks b; a still counts one followed user, yet follows nobody. */
  lemma BlockAsWrittenBreaksCounters()
    ensures var follows := {(1, 2)};
      var counts := map[1 := Follows.Counters(1, 0), 2 := Follows.Counters(0, 1)];
      && Follows.Consistent(follows, counts)
      && !Follows.Consistent(BlockedAsWritten(follows, counts, 1, 2).0, BlockedAsWritten(follows, counts, 1, 2).1)
  {
    var follows := {(1, 2)};
    var counts := map[1 := Follows.Counters(1, 0), 2 := Follows.Counters(0, 1)];
    assert (set p | p in follows && p.0 == 1) == {(1, 2)};
    assert (set p | p in follows && p.1 == 1) == {};
    assert (set p | p in follows && p.0 == 2) == {};
    assert (set p | p in follows && p.1 == 2) == {(1, 2)};
    assert Follows.Consistent(follows, counts);
    var after := BlockedAsWritten(follows, counts, 1, 2).0;
    assert after == {};
    assert (set p | p in after && p.0 == 1) == {};
    assert Follows.Outgoing(after, 1) == 0;
  }

  /**
   * On consistent counters, blockUser as written leaves them consistent
   * exactly when neither user followed the other, that is, exactly when
   * its DELETEs remove nothing.
   */
  lemma BlockAsWrittenStale(follows: set<(int, int)>, counts: map<int, Follows.Counters>, a: int, b: int)
    requires Follows.Consistent(follows, counts) && a in counts && b in counts
    ensures Follows.Consistent(BlockedAsWritten(follows, counts, a, b).0, BlockedAsWritten(follows, counts, a, b).1)
            <==> (a, b) !in follows && (b, a) !in follows
  {
    var mid := follows - {(a, b)};
    var after := BlockedAsWritten(follows, counts, a, b).0;
    assert after == mid - {(b, a)};
    Follows.OutgoingAfterRemove(follows, a, b, a);
    Follows.OutgoingAfterRemove(mid, b, a, a);
    Follows.OutgoingAfterRemove(follows, a, b, b);
    Follows.OutgoingAfterRemove(mid, b, a, b);
    if (a, b) !in follows && (b, a) !in follows {
      assert after == follows;
    }
  }

  /** Removing one follow pair the way unfollow does: the pair and its two floored decrements. */
  function Unfollowed(follows: set<(int, int)>, counts: map<int, Follows.Counters>, a: int, b: int)
    : (r: (set<(int, int)>, map<int, Follows.Counters>))
    ensures r.0 == follows - {(a, b)}
    ensures r.1.Keys == counts.Keys
  {
    if (a, b) in follows then (follows - {(a, b)}, Follows.Unfollowed(counts, a, b)) else (follows, counts)
  }

  /** blockUser as intended: each of the two deletions that removes a pair also decrements its counters. */
  function Blocked(follows: set<(int, int)>, counts: map<int, Follows.Counters>, a: int, b: int)
    : (r: (set<(int, int)>, map<int, Follows.Counters>))
    ensures r.0 == follows - {(a, b), (b, a)}
    ensures r.1.Keys == counts.Keys
  {
    var s := Unfollowed(follows, counts, a, b);
    Unfollowed(s.0, s.1, b, a)
  }

  lemma UnfollowedKeepsConsistent(follows: set<(int, int)>, counts: map<int, Follows.Counters>, a: int, b: int)
    requires Follows.Consistent(follows, counts)
    ensures Follows.Consistent(Unfollowed(follows, counts, a, b).0, Unfollowed(follows, counts, a, b).1)
  {
    if (a, b) in follows {
      Follows.UnfollowKeepsConsistent(follows, counts, a, b);
    }
  }

  /** With the decrements, blocking keeps every counter equal to the pairs it counts. */
  lemma BlockKeepsConsistent(follows: set<(int, int)>, counts: map<int, Follows.Counters>, a: int, b: int)
    requires Follows.Consistent(follows, counts)
    ensures Follows.Consistent(Blocked(follows, counts, a, b).0, Blocked(follows, counts, a, b).1)
  {
    var s := Unfollowed(follows, counts, a, b);
    UnfollowedKeepsConsistent(follows, counts, a, b);
    UnfollowedKeepsConsistent(s.0, s.1, b, a);
  }

  /** Counters stay non-negative through a block. */
  lemma BlockKeepsNonNegative(follows: set<(int, int)>, counts: map<int, Follows.Counters>, a: int, b: int)
    requires Follows.NonNegative(counts)
    ensures Follows.NonNegative(Blocked(follows, counts, a, b).1)
  {
    var s := Unfollowed(follows, counts, a, b);
    Follows.CountersStayNonNegative(counts, a, b);
    Follows.CountersStayNonNegative(s.1, b, a);
  }

  // ---------------------------------------------------------------------------
  // the table class

  /** updateUsername/updateEmail: the exception for a value another user holds, or the UPDATE. */
  datatype UpdateResult = Taken(message: string) | Updated

  class UserStore {
    var users: map<int, UserRow>
    var follows: set<(int, int)>
    /** The follow counters of each `users` row. */
    var counts: map<int, Follows.Counters>
    /** The (blocker_id, blocked_id) rows of `user_blocks`. */
    var blocks: set<(int, int)>
    var settings: map<int, SettingsRow>

    predicate Valid()
      reads this
    {
      UniqueLogins(users)
    }

    constructor ()
      ensures Valid() && users == map[] && follows == {} && counts == map[] && blocks == {} && settings == map[]
    {
      users := map[];
      follows := {};
      counts := map[];
      blocks := {};
      settings := map[];
    }

    /** verifyPassword($email, $password): false for an unknown email, 'banned' before the password, then the id or false. */
    method VerifyPassword(email: string, password: string, passwordVerify: (string, string) -> bool) returns (r: Login)
      requires Valid()
      ensures (forall id :: id in users ==> users[id].email != email) ==> r == Rejected
      ensures forall id :: id in users && users[id].email == email ==> r == LoginFor(id, users[id], password, passwordVerify)
    {
      if !exists id :: id in users && users[id].email == email {
        return Rejected;
      }
      var id :| id in users && users[id].email == email;
      var user := users[id];
      if user.isBanned != 0 {
        return Banned;
      }
      if passwordVerify(password, user.passwordHash) {
        return LoggedIn(id);
      }
      r := Rejected;
    }

    /** getAuthPayload($userId): null for a missing user. */
    method GetAuthPayload(userId: int) returns (r: Option<map<string, Value>>)
      ensures r.None? <==> userId !in users
      ensures r.Some? ==> r.value == AuthPayload(userId, users[userId])
    {
      if userId !in users {
        return None;
      }
      r := Some(AuthPayload(userId, users[userId]));
    }

    /**
     * updateUsername($id, $username): refused when another id holds the
     * name; otherwise the row, if there is one, takes it.
     */
    method UpdateUsername(id: int, username: string) returns (r: UpdateResult)
      requires Valid()
      modifies this
      ensures Valid()
      ensures r.Taken? <==> exists other :: other in old(users) && other != id && old(users)[other].username == username
      ensures r.Taken? ==> users == old(users)
      ensures r.Updated? ==> users == (if id in old(users) then old(users)[id := old(users)[id].(username := username)] else old(users))
      ensures follows == old(follows) && counts == old(counts) && blocks == old(blocks) && settings == old(settings)
    {
      if exists other :: other in users && other != id && users[other].username == username {
        return Taken("Bu kullan\U{131}c\U{131} ad\U{131} zaten kullan\U{131}l\U{131}yor");
      }
      if id in users {
        users := users[id := users[id].(username := username)];
      }
      r := Updated;
    }

    /** updateEmail($id, $email): as updateUsername, and a changed address is unverified again. */
    method UpdateEmail(id: int, email: string) returns (r: UpdateResult)
      requires Valid()
      modifies this
      ensures Valid()
      ensures r.Taken? <==> exists other :: other in old(users) && other != id && old(users)[other].email == email
      ensures r.Taken? ==> users == old(users)
      ensures r.Updated? ==>
        users == (if id in old(users) then old(users)[id := old(users)[id].(email := email, isVerified := 0)] else old(users))
      ensures follows == old(follows) && counts == old(counts) && blocks == old(blocks) && settings == old(settings)
    {
      if exists other :: other in users && other != id && users[other].email == email {
        return Taken("Bu e-posta adresi zaten kullan\U{131}l\U{131}yor");
      }
      if id in users {
        users := users[id := users[id].(email := email, isVerified := 0)];
      }
      r := Updated;
    }

    /** getNotificationSettings($id): the defaults overridden by the stored JSON. */
    method GetNotificationSettings(id: int, dec: string -> Option<Value>) returns (r: Option<Settings>)
      ensures r == WithDefaults(NotificationDefaults, if id in settings then settings[id].notification else None, dec)
    {
      var stored := if id in settings then settings[id].notification else None;
      r := WithDefaults(NotificationDefaults, stored, dec);
    }

    /** getPrivacySettings($id): the defaults overridden by the stored JSON. */
    method GetPrivacySettings(id: int, dec: string -> Option<Value>) returns (r: Option<Settings>)
      ensures r == WithDefaults(PrivacyDefaults, if id in settings then settings[id].privacy else None, dec)
    {
      var stored := if id in settings then settings[id].privacy else None;
      r := WithDefaults(PrivacyDefaults, stored, dec);
    }

    /** updateNotificationSettings($id, $settings): INSERT ... ON DUPLICATE KEY UPDATE of the one column. */
    method UpdateNotificationSettings(id: int, value: Value, enc: Value -> string)
      modifies this
      ensures settings == old(settings)[id := SettingsRow(Some(enc(value)),
        if id in old(settings) then old(settings)[id].privacy else None)]
      ensures users == old(users) && follows == old(follows) && counts == old(counts) && blocks == old(blocks)
    {
      var json := enc(value);
      if id in settings {
        settings := settings[id := settings[id].(notification := Some(json))];
      } else {
        settings := settings[id := SettingsRow(Some(json), None)];
      }
    }

    /** updatePrivacySettings($id, $settings): the same upsert on the privacy column. */
    method UpdatePrivacySettings(id: int, value: Value, enc: Value -> string)
      modifies this
      ensures settings == old(settings)[id := SettingsRow(
        if id in old(settings) then old(settings)[id].notification else None, Some(enc(value)))]
      ensures users == old(users) && follows == old(follows) && counts == old(counts) && blocks == old(blocks)
    {
      var json := enc(value);
      if id in settings {
        settings := settings[id := settings[id].(privacy := Some(json))];
      } else {
        settings := settings[id := SettingsRow(None, Some(json))];
      }
    }

    /**
     * blockUser($a, $b) as written: the two DELETEs remove both follow
     * pairs, the counters are left as they were, and the block is added
     * whether or not it was there (INSERT IGNORE).
     */
    method BlockUser(a: int, b: int)
      modifies this
      ensures (follows, counts) == BlockedAsWritten(old(follows), old(counts), a, b)
      ensures blocks == old(blocks) + {(a, b)}
      ensures users == old(users) && settings == old(settings)
    {
      ghost var before := follows;
      follows := follows - {(a, b)};
      follows := follows - {(b, a)};
      assert follows == before - {(a, b), (b, a)};
      blocks := blocks + {(a, b)};
    }

    /** unblockUser($a, $b): the pair is gone afterwards. */
    method UnblockUser(a: int, b: int)
      modifies this
      ensures blocks == old(blocks) - {(a, b)}
      ensures users == old(users) && follows == old(follows) && counts == old(counts) && settings == old(settings)
    {
      blocks := blocks - {(a, b)};
    }

    /** isBlocked($a, $b): directional; a blocking b says nothing about b blocking a. */
    method IsBlocked(a: int, b: int) returns (r: bool)
      ensures r <==> (a, b) in blocks
    {
      r := (a, b) in blocks;
    }
  }
}
