/**
 * models/Message.php: one-to-one conversations, their messages and the
 * per-user `conversation_hidden` rows. A conversation row stores its two
 * participants in ascending order, so each unordered pair of users has at
 * most one conversation. Message ids are handed out in increasing order and
 * `created_at` is `NOW()` at insertion, so the `ORDER BY m.created_at` of
 * getMessages is modelled as the order of insertion: `messages[i]` is the
 * message with id `i + 1`.
 */
module Messages {
  import opened Optional

  datatype Conversation = Conversation(user1: int, user2: int)

  datatype MessageRow = MessageRow(conversationId: int, senderId: int, content: string, isRead: bool, isDeleted: bool)

  /** `sort($participants)` on the two user ids. */
  function Sorted(a: int, b: int): (r: (int, int))
    ensures r.0 <= r.1
    ensures multiset{r.0, r.1} == multiset{a, b}
  {
    if a <= b then (a, b) else (b, a)
  }

  /** The row a conversation between a and b is stored as. */
  function Pair(a: int, b: int): (r: Conversation)
    ensures r.user1 <= r.user2
    ensures multiset{r.user1, r.user2} == multiset{a, b}
  {
    var p := Sorted(a, b);
    Conversation(p.0, p.1)
  }

  /** The order of the two arguments does not matter. */
  lemma PairSymmetric(a: int, b: int)
    ensures Pair(a, b) == Pair(b, a)
  {
  }

  /** Every stored pair is sorted, and no pair is stored twice. */
  predicate CanonicalPairs(conversations: map<int, Conversation>)
  {
    && (forall id :: id in conversations ==> conversations[id].user1 <= conversations[id].user2)
    && (forall i, j :: i in conversations && j in conversations && conversations[i] == conversations[j] ==> i == j)
  }

  /**
   * Whichever order the two users come in, a lookup in a table of canonical
   * pairs finds the same conversation: getOrCreateConversation(a, b) and
   * getOrCreateConversation(b, a) give one id.
   */
  lemma SameConversation(conversations: map<int, Conversation>, x: int, y: int, a: int, b: int)
    requires CanonicalPairs(conversations)
    requires x in conversations && conversations[x] == Pair(a, b)
    requires y in conversations && conversations[y] == Pair(b, a)
    ensures x == y
  {
    PairSymmetric(a, b);
  }

  /** A new sorted pair under a fresh id keeps the table canonical. */
  lemma InsertKeepsCanonical(conversations: map<int, Conversation>, id: int, a: int, b: int)
    requires CanonicalPairs(conversations)
    requires id !in conversations
    requires forall i :: i in conversations ==> conversations[i] != Pair(a, b)
    ensures CanonicalPairs(conversations[id := Pair(a, b)])
  {
  }

  predicate Participant(c: Conversation, userId: int)
  {
    c.user1 == userId || c.user2 == userId
  }

  /** The row of getConversation: the conversation and the `other_user_id` column. */
  datatype ConversationView = ConversationView(id: int, conversation: Conversation, otherUserId: int)

  /**
   * getConversation($conversationId, $userId): a row only for a participant;
   * the other participant is `user2` when the user is `user1`, else `user1`.
   */
  function View(conversations: map<int, Conversation>, id: int, userId: int): (r: Option<ConversationView>)
    ensures r.Some? <==> id in conversations && Participant(conversations[id], userId)
    ensures r.Some? ==> r.value.id == id && r.value.conversation == conversations[id]
    ensures r.Some? ==> multiset{userId, r.value.otherUserId} == multiset{conversations[id].user1, conversations[id].user2}
  {
    if id in conversations && Participant(conversations[id], userId) then
      var c := conversations[id];
      Some(ConversationView(id, c, if c.user1 == userId then c.user2 else c.user1))
    else
      None
  }

  /** Between two distinct users, the other participant is never the one asking. */
  lemma OtherIsNotSelf(conversations: map<int, Conversation>, id: int, userId: int)
    requires View(conversations, id, userId).Some?
    requires conversations[id].user1 != conversations[id].user2
    ensures View(conversations, id, userId).value.otherUserId != userId
    ensures Participant(conversations[id], View(conversations, id, userId).value.otherUserId)
  {
  }

  // ---------------------------------------------------------------------------
  // the messages of one conversation

  /** The ids of the messages among the first n rows that belong to the conversation, in insertion order. */
  function IdsUpTo(messages: seq<MessageRow>, conversationId: int, n: nat): (r: seq<int>)
    requires n <= |messages|
    ensures forall k :: 0 <= k < |r| ==> 1 <= r[k] <= n && messages[r[k] - 1].conversationId == conversationId
  {
    if n == 0 then []
    else IdsUpTo(messages, conversationId, n - 1) + (if messages[n - 1].conversationId == conversationId then [n] else [])
  }

  predicate Ascending(s: seq<int>)
  {
    forall k, l :: 0 <= k < l < |s| ==> s[k] < s[l]
  }

  /** The ids strictly increase, and every message of the conversation among the first n rows is there. */
  lemma {:induction false} IdsUpToOrdered(messages: seq<MessageRow>, conversationId: int, n: nat)
    requires n <= |messages|
    ensures Ascending(IdsUpTo(messages, conversationId, n))
    ensures forall id :: 1 <= id <= n && messages[id - 1].conversationId == conversationId ==> id in IdsUpTo(messages, conversationId, n)
  {
    if n > 0 {
      IdsUpToOrdered(messages, conversationId, n - 1);
      var p := IdsUpTo(messages, conversationId, n - 1);
      if messages[n - 1].conversationId == conversationId {
        AppendAscending(p, n);
        assert IdsUpTo(messages, conversationId, n) == p + [n];
      } else {
        assert IdsUpTo(messages, conversationId, n) == p;
      }
    }
  }

  /** An id above every id of an ascending list can go at its end: the list stays ascending and keeps its members. */
  lemma AppendAscending(p: seq<int>, n: int)
    requires Ascending(p)
    requires forall k :: 0 <= k < |p| ==> p[k] < n
    ensures Ascending(p + [n])
    ensures forall x :: x in p ==> x in p + [n]
  {
    var r := p + [n];
    forall k, l | 0 <= k < l < |r|
      ensures r[k] < r[l]
    {
      assert r[k] == p[k];
      if l < |p| {
        assert r[l] == p[l];
      }
    }
  }

  /** `WHERE m.conversation_id = ?` in chronological order; deleted messages are not filtered out. */
  function Chronological(messages: seq<MessageRow>, conversationId: int): seq<int>
  {
    IdsUpTo(messages, conversationId, |messages|)
  }

  function Reverse<T>(s: seq<T>): (r: seq<T>)
    ensures |r| == |s|
    ensures forall i :: 0 <= i < |s| ==> r[i] == s[|s| - 1 - i]
  {
    seq(|s|, i requires 0 <= i < |s| => s[|s| - 1 - i])
  }

  function Min(a: int, b: int): int
  {
    if a <= b then a else b
  }

  /** `LIMIT limit OFFSET offset` on a list. */
  function Window<T>(s: seq<T>, offset: nat, limit: nat): (r: seq<T>)
    ensures |r| <= limit
  {
    s[Min(offset, |s|)..Min(offset + limit, |s|)]
  }

  /** getMessages' page: the DESC page of the conversation, reversed to read oldest first. */
  function OldestFirst(messages: seq<MessageRow>, conversationId: int, offset: nat, limit: nat): seq<int>
  {
    Reverse(Window(Reverse(Chronological(messages, conversationId)), offset, limit))
  }

  /**
   * A page read oldest first is a contiguous run of the conversation in
   * chronological order: page 1 is the newest `limit` messages, and each
   * further page the run just before the previous one.
   */
  lemma {:induction false} OldestFirstIsSlice(messages: seq<MessageRow>, conversationId: int, offset: nat, limit: nat)
    ensures var c := Chronological(messages, conversationId);
      OldestFirst(messages, conversationId, offset, limit) == c[|c| - Min(offset + limit, |c|)..|c| - Min(offset, |c|)]
  {
    ReversedWindow(Chronological(messages, conversationId), offset, limit);
  }

  /** The reversed window of the reversed list is a slice of the list itself. */
  lemma ReversedWindow(c: seq<int>, offset: nat, limit: nat)
    ensures Reverse(Window(Reverse(c), offset, limit)) == c[|c| - Min(offset + limit, |c|)..|c| - Min(offset, |c|)]
  {
    var lo := Min(offset, |c|);
    var hi := Min(offset + limit, |c|);
    var d := Reverse(c);
    var w := Window(d, offset, limit);
    assert w == d[lo..hi];
    var r := Reverse(w);
    var s := c[|c| - hi..|c| - lo];
    assert |r| == |s|;
    forall i | 0 <= i < |r|
      ensures r[i] == s[i]
    {
      assert r[i] == w[|w| - 1 - i] == d[lo + (|w| - 1 - i)];
      assert d[lo + (|w| - 1 - i)] == c[|c| - 1 - (lo + (|w| - 1 - i))];
    }
  }

  /** Within a page, messages come oldest first: ids, and so insertion times, strictly increase. */
  lemma PageAscends(messages: seq<MessageRow>, conversationId: int, offset: nat, limit: nat)
    ensures Ascending(OldestFirst(messages, conversationId, offset, limit))
    ensures forall id :: id in OldestFirst(messages, conversationId, offset, limit) ==>
      1 <= id <= |messages| && messages[id - 1].conversationId == conversationId
  {
    PageOrdered(messages, conversationId, offset, limit);
    PageMembers(messages, conversationId, offset, limit);
  }

  lemma PageOrdered(messages: seq<MessageRow>, conversationId: int, offset: nat, limit: nat)
    ensures Ascending(OldestFirst(messages, conversationId, offset, limit))
  {
    var c := Chronological(messages, conversationId);
    OldestFirstIsSlice(messages, conversationId, offset, limit);
    IdsUpToOrdered(messages, conversationId, |messages|);
    SliceAscends(c, |c| - Min(offset + limit, |c|), |c| - Min(offset, |c|));
  }

  lemma PageMembers(messages: seq<MessageRow>, conversationId: int, offset: nat, limit: nat)
    ensures forall id :: id in OldestFirst(messages, conversationId, offset, limit) ==>
      1 <= id <= |messages| && messages[id - 1].conversationId == conversationId
  {
    var c := Chronological(messages, conversationId);
    OldestFirstIsSlice(messages, conversationId, offset, limit);
    SliceMembers(c, |c| - Min(offset + limit, |c|), |c| - Min(offset, |c|));
  }

  lemma SliceMembers(c: seq<int>, lo: int, hi: int)
    requires 0 <= lo <= hi <= |c|
    ensures forall x :: x in c[lo..hi] ==> x in c
  {
  }

  lemma SliceAscends(c: seq<int>, lo: int, hi: int)
    requires Ascending(c) && 0 <= lo <= hi <= |c|
    ensures Ascending(c[lo..hi])
    ensures forall x :: x in c[lo..hi] ==> x in c
  {
    var p := c[lo..hi];
    forall k, l | 0 <= k < l < |p|
      ensures p[k] < p[l]
    {
      assert p[k] == c[lo + k] && p[l] == c[lo + l];
    }
  }

  /** The first page with room for every message is the whole conversation. */
  lemma FirstPageIsAll(messages: seq<MessageRow>, conversationId: int, limit: nat)
    requires |Chronological(messages, conversationId)| <= limit
    ensures OldestFirst(messages, conversationId, 0, limit) == Chronological(messages, conversationId)
  {
    OldestFirstIsSlice(messages, conversationId, 0, limit);
  }

  // ---------------------------------------------------------------------------
  // read marks

  /** `conversation_id = ? AND sender_id != ? AND is_read = 0`. */
  predicate UnreadFor(m: MessageRow, conversationId: int, userId: int)
  {
    m.conversationId == conversationId && m.senderId != userId && !m.isRead
  }

  function UnreadCount(messages: seq<MessageRow>, conversationId: int, userId: int): nat
  {
    |UnreadRows(messages, conversationId, userId)|
  }

  /** markAsRead's UPDATE: `is_read = 1` on exactly the matching rows. */
  function MarkedRead(messages: seq<MessageRow>, conversationId: int, userId: int): (r: seq<MessageRow>)
    ensures |r| == |messages|
    ensures forall i :: 0 <= i < |messages| ==>
      r[i] == (if UnreadFor(messages[i], conversationId, userId) then messages[i].(isRead := true) else messages[i])
  {
    seq(|messages|, i requires 0 <= i < |messages| =>
      if UnreadFor(messages[i], conversationId, userId) then messages[i].(isRead := true) else messages[i])
  }

  /** Nothing is left unread for the user in that conversation, so a second markAsRead returns 0. */
  lemma MarkedReadLeavesNone(messages: seq<MessageRow>, conversationId: int, userId: int)
    ensures UnreadCount(MarkedRead(messages, conversationId, userId), conversationId, userId) == 0
  {
    var m' := MarkedRead(messages, conversationId, userId);
    forall i | 0 <= i < |m'|
      ensures !UnreadFor(m'[i], conversationId, userId)
    {
    }
    var s := set i | 0 <= i < |m'| && UnreadFor(m'[i], conversationId, userId);
    assert s == {};
  }

  /** Another user's unread messages, or another conversation's, are left as they were. */
  lemma MarkedReadKeepsOthers(messages: seq<MessageRow>, conversationId: int, userId: int, c: int, u: int)
    requires c != conversationId || u == userId
    ensures UnreadCount(MarkedRead(messages, conversationId, userId), c, u)
      == UnreadCount(messages, c, u) - (if c == conversationId then UnreadCount(messages, c, u) else 0)
  {
    var m' := MarkedRead(messages, conversationId, userId);
    var before := set i | 0 <= i < |messages| && UnreadFor(messages[i], c, u);
    var after := set i | 0 <= i < |m'| && UnreadFor(m'[i], c, u);
    if c == conversationId {
      MarkedReadLeavesNone(messages, conversationId, userId);
    } else {
      assert after == before;
    }
  }

  /** Only read flags change: who sent what, where, and the deletion marks stay. */
  lemma MarkedReadKeepsContents(messages: seq<MessageRow>, conversationId: int, userId: int, i: int)
    requires 0 <= i < |messages|
    ensures MarkedRead(messages, conversationId, userId)[i].(isRead := messages[i].isRead) == messages[i]
    ensures MarkedRead(messages, conversationId, userId)[i].isRead == (messages[i].isRead || UnreadFor(messages[i], conversationId, userId))
  {
  }

  // ---------------------------------------------------------------------------
  // hidden conversations

  /** getConversationsFiltered: the user's conversations without a `conversation_hidden` row for the user. */
  function Listed(conversations: map<int, Conversation>, hidden: set<(int, int)>, userId: int): (r: set<int>)
    ensures forall id :: id in r <==> id in conversations && Participant(conversations[id], userId) && (id, userId) !in hidden
  {
    set id | id in conversations && Participant(conversations[id], userId) && (id, userId) !in hidden
  }

  /** Hiding takes the conversation off the user's list only, and unhiding brings it back. */
  lemma HideUnhideListing(conversations: map<int, Conversation>, hidden: set<(int, int)>, id: int, userId: int, other: int)
    requires other != userId
    ensures id !in Listed(conversations, hidden + {(id, userId)}, userId)
    ensures Listed(conversations, hidden + {(id, userId)}, other) == Listed(conversations, hidden, other)
    ensures id in conversations && Participant(conversations[id], userId) ==> id in Listed(conversations, hidden - {(id, userId)}, userId)
    ensures Listed(conversations, hidden - {(id, userId)}, other) == Listed(conversations, hidden, other)
  {
  }

  /** Hiding only ever narrows the list: the filtered listing is part of the unfiltered one. */
  lemma FilteredWithinAll(conversations: map<int, Conversation>, hidden: set<(int, int)>, userId: int)
    ensures Listed(conversations, hidden, userId) <= Listed(conversations, {}, userId)
    ensures |Listed(conversations, hidden, userId)| <= |Listed(conversations, {}, userId)|
  {
    var f := Listed(conversations, hidden, userId);
    var a := Listed(conversations, {}, userId);
    assert f <= a;
    assert a == f + (a - f);
  }

  // ---------------------------------------------------------------------------
  // the unread badge

  /** getUnreadCount's WHERE for one row: in one of the user's conversations, sent by someone else, unread. */
  predicate UnreadBadge(conversations: map<int, Conversation>, m: MessageRow, userId: int)
  {
    m.conversationId in conversations && Participant(conversations[m.conversationId], userId)
    && m.senderId != userId && !m.isRead
  }

  function BadgeRows(conversations: map<int, Conversation>, messages: seq<MessageRow>, userId: int): set<int>
  {
    set i | 0 <= i < |messages| && UnreadBadge(conversations, messages[i], userId)
  }

  /** The rows markAsRead changes. */
  function UnreadRows(messages: seq<MessageRow>, conversationId: int, userId: int): set<int>
  {
    set i | 0 <= i < |messages| && UnreadFor(messages[i], conversationId, userId)
  }

  /**
   * markAsRead in one of the user's conversations takes exactly the rows it
   * changed off the user's badge; in a conversation the user is not part of
   * it does not change the badge.
   */
  lemma BadgeAfterMarkAsRead(conversations: map<int, Conversation>, messages: seq<MessageRow>, c: int, userId: int)
    ensures c in conversations && Participant(conversations[c], userId) ==>
      |BadgeRows(conversations, MarkedRead(messages, c, userId), userId)|
      == |BadgeRows(conversations, messages, userId)| - UnreadCount(messages, c, userId)
    ensures !(c in conversations && Participant(conversations[c], userId)) ==>
      BadgeRows(conversations, MarkedRead(messages, c, userId), userId) == BadgeRows(conversations, messages, userId)
  {
    var before := BadgeRows(conversations, messages, userId);
    var after := BadgeRows(conversations, MarkedRead(messages, c, userId), userId);
    var marked := UnreadRows(messages, c, userId);
    if c in conversations && Participant(conversations[c], userId) {
      assert marked <= before;
      assert after == before - marked;
      assert before == after + marked;
    } else {
      assert after == before;
    }
  }

  // ---------------------------------------------------------------------------
  // the table class

  /** getMessages: not a participant, an SQL error from a negative LIMIT or OFFSET, or the page. */
  datatype MessagesResult =
    | NotParticipant
    | SqlError
    | Page(ids: seq<int>, total: nat, conversation: ConversationView)

  class MessageStore {
    var conversations: map<int, Conversation>
    var messages: seq<MessageRow>
    /** The (conversation_id, user_id) rows of `conversation_hidden`. */
    var hidden: set<(int, int)>
    var nextConversation: int

    predicate Valid()
      reads this
    {
      CanonicalPairs(conversations) && forall id :: id in conversations ==> id < nextConversation
    }

    constructor ()
      ensures Valid() && conversations == map[] && messages == [] && hidden == {}
    {
      conversations := map[];
      messages := [];
      hidden := {};
      nextConversation := 1;
    }

    /**
     * getOrCreateConversation($a, $b): the id of the conversation of the
     * sorted pair, created when there is none; a second call with either
     * order finds it and creates nothing.
     */
    method GetOrCreateConversation(a: int, b: int) returns (id: int)
      requires Valid()
      modifies this
      ensures Valid()
      ensures id in conversations && conversations[id] == Pair(a, b)
      ensures Pair(a, b) in old(conversations).Values ==>
        conversations == old(conversations) && nextConversation == old(nextConversation)
      ensures Pair(a, b) !in old(conversations).Values ==>
        (id == old(nextConversation) && id !in old(conversations) && conversations == old(conversations)[id := Pair(a, b)])
      ensures messages == old(messages) && hidden == old(hidden)
    {
      var participants := Sorted(a, b);
      var pair := Conversation(participants.0, participants.1);
      if exists i :: i in conversations && conversations[i] == pair {
        id :| id in conversations && conversations[id] == pair;
        return;
      }
      id := nextConversation;
      InsertKeepsCanonical(conversations, id, a, b);
      conversations := conversations[id := pair];
      nextConversation := nextConversation + 1;
    }

    /** getConversation($id, $userId). */
    method GetConversation(id: int, userId: int) returns (r: Option<ConversationView>)
      ensures r == View(conversations, id, userId)
    {
      if id in conversations && (conversations[id].user1 == userId || conversations[id].user2 == userId) {
        var c := conversations[id];
        var other := if c.user1 == userId then c.user2 else c.user1;
        r := Some(ConversationView(id, c, other));
      } else {
        r := None;
      }
    }

    /**
     * getMessages($id, $userId, $page, $perPage): nothing for a
     * non-participant; otherwise the page of the newest-first listing,
     * reversed, with the number of messages in the conversation.
     */
    method GetMessages(id: int, userId: int, page: int, perPage: int) returns (r: MessagesResult)
      ensures View(conversations, id, userId).None? <==> r.NotParticipant?
      ensures r.SqlError? <==> View(conversations, id, userId).Some? && ((page - 1) * perPage < 0 || perPage < 0)
      ensures r.Page? ==>
        (&& (page - 1) * perPage >= 0 && perPage >= 0
         && r.ids == OldestFirst(messages, id, (page - 1) * perPage, perPage)
         && r.total == |Chronological(messages, id)|
         && Some(r.conversation) == View(conversations, id, userId))
    {
      var conv := GetConversation(id, userId);
      if conv.None? {
        return NotParticipant;
      }
      var offset := (page - 1) * perPage;
      if offset < 0 || perPage < 0 {
        return SqlError;
      }
      var all := Chronological(messages, id);
      var newest := Window(Reverse(all), offset, perPage);
      r := Page(Reverse(newest), |all|, conv.value);
    }

    /** getConversations($userId): the user's conversations and their number, before ordering and paging. */
    method GetConversations(userId: int) returns (ids: set<int>, total: nat)
      ensures ids == Listed(conversations, {}, userId) && total == |ids|
    {
      ids := set id | id in conversations && (conversations[id].user1 == userId || conversations[id].user2 == userId);
      total := |ids|;
    }

    /** getConversationsFiltered($userId): the same without the conversations the user hid. */
    method GetConversationsFiltered(userId: int) returns (ids: set<int>, total: nat)
      ensures ids == Listed(conversations, hidden, userId) && total == |ids|
    {
      ids := set id | id in conversations && Participant(conversations[id], userId) && (id, userId) !in hidden;
      total := |ids|;
    }

    /** getMessageById($messageId): the row with that id, deleted or not. */
    method GetMessageById(messageId: int) returns (r: Option<MessageRow>)
      ensures r.Some? <==> 1 <= messageId <= |messages|
      ensures r.Some? ==> r.value == messages[messageId - 1]
    {
      if 1 <= messageId <= |messages| {
        r := Some(messages[messageId - 1]);
      } else {
        r := None;
      }
    }

    /** getUnreadCount($userId). */
    method GetUnreadCount(userId: int) returns (n: nat)
      ensures n == |BadgeRows(conversations, messages, userId)|
    {
      n := |set i | 0 <= i < |messages| && UnreadBadge(conversations, messages[i], userId)|;
    }

    /** send($sender, $recipient, $content): the message goes into the pair's conversation, created if need be. */
    method Send(senderId: int, recipientId: int, content: string) returns (messageId: int, row: MessageRow)
      requires Valid()
      modifies this
      ensures Valid()
      ensures row.conversationId in conversations && conversations[row.conversationId] == Pair(senderId, recipientId)
      ensures row == MessageRow(row.conversationId, senderId, content, false, false)
      ensures messages == old(messages) + [row] && messageId == |messages|
      ensures Pair(senderId, recipientId) in old(conversations).Values ==> conversations == old(conversations)
      ensures Pair(senderId, recipientId) !in old(conversations).Values ==>
        row.conversationId == old(nextConversation) && row.conversationId !in old(conversations) &&
        conversations == old(conversations)[row.conversationId := Pair(senderId, recipientId)]
      ensures hidden == old(hidden)
    {
      var conversationId := GetOrCreateConversation(senderId, recipientId);
      row := MessageRow(conversationId, senderId, content, false, false);
      messages := messages + [row];
      messageId := |messages|;
    }

    /** markAsRead($id, $userId): the number of rows it changed. */
    method MarkAsRead(id: int, userId: int) returns (n: nat)
      modifies this
      ensures n == UnreadCount(old(messages), id, userId)
      ensures messages == MarkedRead(old(messages), id, userId)
      ensures conversations == old(conversations) && hidden == old(hidden) && nextConversation == old(nextConversation)
    {
      n := UnreadCount(messages, id, userId);
      messages := MarkedRead(messages, id, userId);
    }

    /**
     * deleteMessage($messageId, $userId): soft-deletes the user's own
     * message; true only when a row changed, so not for someone else's
     * message nor for one already deleted.
     */
    method DeleteMessage(messageId: int, userId: int) returns (ok: bool)
      modifies this
      ensures ok <==> (1 <= messageId <= |old(messages)| && old(messages)[messageId - 1].senderId == userId
        && !old(messages)[messageId - 1].isDeleted)
      ensures ok ==> messages == old(messages)[messageId - 1 := old(messages)[messageId - 1].(isDeleted := true)]
      ensures !ok ==> messages == old(messages)
      ensures conversations == old(conversations) && hidden == old(hidden) && nextConversation == old(nextConversation)
    {
      if 1 <= messageId <= |messages| && messages[messageId - 1].senderId == userId && !messages[messageId - 1].isDeleted {
        messages := messages[messageId - 1 := messages[messageId - 1].(isDeleted := true)];
        ok := true;
      } else {
        ok := false;
      }
    }

    /** hideConversation($id, $userId): false for a non-participant; INSERT IGNORE, so hiding twice is hiding once. */
    method HideConversation(id: int, userId: int) returns (ok: bool)
      modifies this
      ensures ok <==> View(old(conversations), id, userId).Some?
      ensures ok ==> hidden == old(hidden) + {(id, userId)}
      ensures !ok ==> hidden == old(hidden)
      ensures conversations == old(conversations) && messages == old(messages) && nextConversation == old(nextConversation)
    {
      var conv := GetConversation(id, userId);
      if conv.None? {
        return false;
      }
      hidden := hidden + {(id, userId)};
      ok := true;
    }

    /** unhideConversation($id, $userId): true exactly when a hidden row was deleted; no participant check. */
    method UnhideConversation(id: int, userId: int) returns (ok: bool)
      modifies this
      ensures ok <==> (id, userId) in old(hidden)
      ensures hidden == old(hidden) - {(id, userId)}
      ensures conversations == old(conversations) && messages == old(messages) && nextConversation == old(nextConversation)
    {
      ok := (id, userId) in hidden;
      hidden := hidden - {(id, userId)};
    }
  }
}
