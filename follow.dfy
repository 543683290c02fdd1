/**
 * models/Follow.php: the `follows` table of (follower, following) pairs and
 * the two counters of the `users` table it keeps in step, `following_count`
 * and `followers_count`. A transaction either runs all its statements or,
 * rolled back, none.
 */
module Follows {

  /** The two counter columns of a `users` row. */
  datatype Counters = Counters(following: int, followers: int)

  /** COUNT(*) FROM follows WHERE follower_id = u. */
  function Outgoing(follows: set<(int, int)>, u: int): nat
  {
    |set p | p in follows && p.0 == u|
  }

  /** COUNT(*) FROM follows WHERE following_id = u. */
  function Incoming(follows: set<(int, int)>, u: int): nat
  {
    |set p | p in follows && p.1 == u|
  }

  /** Adding the pair (a, b) adds one to a's outgoing and b's incoming count when it is new, and nothing else. */
  lemma CountsAfterAdd(follows: set<(int, int)>, a: int, b: int, u: int)
    ensures Outgoing(follows + {(a, b)}, u) == Outgoing(follows, u) + (if u == a && (a, b) !in follows then 1 else 0)
    ensures Incoming(follows + {(a, b)}, u) == Incoming(follows, u) + (if u == b && (a, b) !in follows then 1 else 0)
  {
    OutgoingAfterAdd(follows, a, b, u);
    IncomingAfterAdd(follows, a, b, u);
  }

  lemma OutgoingAfterAdd(follows: set<(int, int)>, a: int, b: int, u: int)
    ensures Outgoing(follows + {(a, b)}, u) == Outgoing(follows, u) + (if u == a && (a, b) !in follows then 1 else 0)
  {
    var o := set p | p in follows && p.0 == u;
    var o' := set p | p in follows + {(a, b)} && p.0 == u;
    if u == a && (a, b) !in follows { assert o' == o + {(a, b)}; } else { assert o' == o; }
  }

  lemma IncomingAfterAdd(follows: set<(int, int)>, a: int, b: int, u: int)
    ensures Incoming(follows + {(a, b)}, u) == Incoming(follows, u) + (if u == b && (a, b) !in follows then 1 else 0)
  {
    var i := set p | p in follows && p.1 == u;
    var i' := set p | p in follows + {(a, b)} && p.1 == u;
    if u == b && (a, b) !in follows { assert i' == i + {(a, b)}; } else { assert i' == i; }
  }

  /** Removing the pair (a, b) takes one from a's outgoing and b's incoming count when it was there, and nothing else. */
  lemma CountsAfterRemove(follows: set<(int, int)>, a: int, b: int, u: int)
    ensures Outgoing(follows - {(a, b)}, u) == Outgoing(follows, u) - (if u == a && (a, b) in follows then 1 else 0)
    ensures Incoming(follows - {(a, b)}, u) == Incoming(follows, u) - (if u == b && (a, b) in follows then 1 else 0)
  {
    OutgoingAfterRemove(follows, a, b, u);
    IncomingAfterRemove(follows, a, b, u);
  }

  lemma OutgoingAfterRemove(follows: set<(int, int)>, a: int, b: int, u: int)
    ensures Outgoing(follows - {(a, b)}, u) == Outgoing(follows, u) - (if u == a && (a, b) in follows then 1 else 0)
  {
    var o := set p | p in follows && p.0 == u;
    var o' := set p | p in follows - {(a, b)} && p.0 == u;
    if u == a && (a, b) in follows { assert o == o' + {(a, b)}; } else { assert o' == o; }
  }

  lemma IncomingAfterRemove(follows: set<(int, int)>, a: int, b: int, u: int)
    ensures Incoming(follows - {(a, b)}, u) == Incoming(follows, u) - (if u == b && (a, b) in follows then 1 else 0)
  {
    var i := set p | p in follows && p.1 == u;
    var i' := set p | p in follows - {(a, b)} && p.1 == u;
    if u == b && (a, b) in follows { assert i == i' + {(a, b)}; } else { assert i' == i; }
  }

  /** `UPDATE users SET following_count = following_count + 1 WHERE id = a`, then the same on b's followers_count. */
  function Followed(counts: map<int, Counters>, a: int, b: int): (r: map<int, Counters>)
    ensures r.Keys == counts.Keys
  {
    var c1 := if a in counts then counts[a := counts[a].(following := counts[a].following + 1)] else counts;
    if b in c1 then c1[b := c1[b].(followers := c1[b].followers + 1)] else c1
  }

  /** `GREATEST(x - 1, 0)`. */
  function Floor1(x: int): int
  {
    if x - 1 > 0 then x - 1 else 0
  }

  /** The two decrements of unfollow, each with a floor of 0. */
  function Unfollowed(counts: map<int, Counters>, a: int, b: int): (r: map<int, Counters>)
    ensures r.Keys == counts.Keys
  {
    var c1 := if a in counts then counts[a := counts[a].(following := Floor1(counts[a].following))] else counts;
    if b in c1 then c1[b := c1[b].(followers := Floor1(c1[b].followers))] else c1
  }

  /** Every stored counter equals the count of the pairs it summarises. */
  predicate Consistent(follows: set<(int, int)>, counts: map<int, Counters>)
  {
    forall u :: u in counts ==> counts[u].following == Outgoing(follows, u) && counts[u].followers == Incoming(follows, u)
  }

  predicate NonNegative(counts: map<int, Counters>)
  {
    forall u :: u in counts ==> counts[u].following >= 0 && counts[u].followers >= 0
  }

  /** A new pair with its two increments keeps the counters exact. */
  lemma FollowKeepsConsistent(follows: set<(int, int)>, counts: map<int, Counters>, a: int, b: int)
    requires Consistent(follows, counts)
    requires a != b && (a, b) !in follows
    ensures Consistent(follows + {(a, b)}, Followed(counts, a, b))
  {
    forall u | u in counts
      ensures Followed(counts, a, b)[u].following == Outgoing(follows + {(a, b)}, u)
      ensures Followed(counts, a, b)[u].followers == Incoming(follows + {(a, b)}, u)
    {
      CountsAfterAdd(follows, a, b, u);
    }
  }

  /** Removing a pair with its two decrements keeps the counters exact: the floor is never reached. */
  lemma UnfollowKeepsConsistent(follows: set<(int, int)>, counts: map<int, Counters>, a: int, b: int)
    requires Consistent(follows, counts)
    requires (a, b) in follows
    ensures Consistent(follows - {(a, b)}, Unfollowed(counts, a, b))
  {
    forall u | u in counts
      ensures Unfollowed(counts, a, b)[u].following == Outgoing(follows - {(a, b)}, u)
      ensures Unfollowed(counts, a, b)[u].followers == Incoming(follows - {(a, b)}, u)
    {
      CountsAfterRemove(follows, a, b, u);
      if u == a {
        assert (a, b) in set p | p in follows && p.0 == u;
      }
      if u == b {
        assert (a, b) in set p | p in follows && p.1 == u;
      }
    }
  }

  /** Counters never go below 0: increments and floored decrements both keep them non-negative. */
  lemma CountersStayNonNegative(counts: map<int, Counters>, a: int, b: int)
    requires NonNegative(counts)
    ensures NonNegative(Followed(counts, a, b))
    ensures NonNegative(Unfollowed(counts, a, b))
  {
  }

  /** A counter already at 0 stays at 0 on unfollow, rather than going negative. */
  lemma FloorAtZero(counts: map<int, Counters>, a: int, b: int)
    requires a != b && a in counts && b in counts
    requires counts[a].following == 0 && counts[b].followers == 0
    ensures Unfollowed(counts, a, b)[a].following == 0
    ensures Unfollowed(counts, a, b)[b].followers == 0
  {
  }

  /** The outcome of follow(): the exception for following oneself, otherwise whether the pair was inserted. */
  datatype FollowResult = SelfFollow | Inserted(ok: bool)

  class FollowStore {
    var follows: set<(int, int)>
    var counts: map<int, Counters>

    constructor (users: set<int>)
      ensures follows == {}
      ensures counts.Keys == users && forall u :: u in counts ==> counts[u] == Counters(0, 0)
      ensures Consistent(follows, counts)
    {
      follows := {};
      counts := map u | u in users :: Counters(0, 0);
    }

    /**
     * follow(a, b): following oneself throws before anything is touched; a
     * pair already there is a failed INSERT, rolled back (false); otherwise
     * the pair and both increments are committed (true).
     */
    method Follow(a: int, b: int) returns (r: FollowResult)
      modifies this
      ensures a == b ==> r == SelfFollow && follows == old(follows) && counts == old(counts)
      ensures a != b ==> r == Inserted((a, b) !in old(follows))
      ensures a != b && (a, b) !in old(follows) ==> follows == old(follows) + {(a, b)} && counts == Followed(old(counts), a, b)
      ensures a != b && (a, b) in old(follows) ==> follows == old(follows) && counts == old(counts)
      ensures Consistent(old(follows), old(counts)) ==> Consistent(follows, counts)
    {
      if a == b {
        return SelfFollow;
      }
      if (a, b) in follows {
        return Inserted(false);
      }
      if Consistent(follows, counts) {
        FollowKeepsConsistent(follows, counts, a, b);
      }
      follows := follows + {(a, b)};
      counts := Followed(counts, a, b);
      r := Inserted(true);
    }

    /** unfollow(a, b): true with the pair removed and both counters floored-decremented; false with nothing changed. */
    method Unfollow(a: int, b: int) returns (ok: bool)
      modifies this
      ensures ok <==> (a, b) in old(follows)
      ensures ok ==> follows == old(follows) - {(a, b)} && counts == Unfollowed(old(counts), a, b)
      ensures !ok ==> follows == old(follows) && counts == old(counts)
      ensures Consistent(old(follows), old(counts)) ==> Consistent(follows, counts)
    {
      if (a, b) !in follows {
        return false;
      }
      if Consistent(follows, counts) {
        UnfollowKeepsConsistent(follows, counts, a, b);
      }
      follows := follows - {(a, b)};
      counts := Unfollowed(counts, a, b);
      ok := true;
    }

    /** isFollowing(a, b): the pair is in the table; the direction matters. */
    method IsFollowing(a: int, b: int) returns (r: bool)
      ensures r <==> (a, b) in follows
    {
      r := (a, b) in follows;
    }

    /** getFollowersCount(b): counted from the pairs, not read from the stored counter. */
    method FollowersCount(b: int) returns (n: int)
      ensures n == Incoming(follows, b)
      ensures Consistent(follows, counts) && b in counts ==> n == counts[b].followers
    {
      n := |set p | p in follows && p.1 == b|;
    }
  }
}
