/**
 * The session and quota bookkeeping behind the bot, kept in four tables:
 * `sessions` ((user, chat) to last-update time), `messages` (append-only,
 * in insertion order), `active_chat` (user to the chat new messages go to)
 * and `quotas` ((user, day) to tokens used that day). The tables are maps
 * and a sequence; the current time and the day key are parameters.
 */
module Store {
  import opened Wrappers
  import Access
  import UseCommand

  /** The primary key of `sessions`. */
  datatype SessionKey = SessionKey(user: int, chat: int)

  /** The primary key of `quotas`; `day` is the `YYYYMMDD` key of the local date. */
  datatype QuotaKey = QuotaKey(user: int, day: string)

  /** A row of `messages`; the position in the sequence is the order of the autoincrement id. */
  datatype Message = Message(user: int, chat: int, role: string, content: string, createdAt: int)

  /** One entry of what `history` returns. */
  datatype Turn = Turn(role: string, content: string)

  /** One row of what `list_chats` returns. */
  datatype ChatRow = ChatRow(chat: int, updatedAt: int)

  // ---------------------------------------------------------------- sessions

  /** The chat ids `user` owns. */
  function ChatIds(sessions: map<SessionKey, int>, user: int): set<int>
  {
    set k | k in sessions && k.user == user :: k.chat
  }

  lemma {:induction false} MaximumExists(s: set<int>)
    requires exists y :: y in s
    ensures exists m :: m in s && forall x :: x in s ==> x <= m
    decreases |s|
  {
    var y :| y in s;
    var rest := s - {y};
    if exists x :: x in rest {
      MaximumExists(rest);
      var m :| m in rest && forall x :: x in rest ==> x <= m;
      var top := if y > m then y else m;
      forall x | x in s ensures x <= top {
        if x != y {
          assert x in rest;
        }
      }
    } else {
      forall x | x in s ensures x <= y {
        assert x !in rest;
      }
    }
  }

  /** `MAX(...)` over a non-empty set. */
  function Maximum(s: set<int>): (m: int)
    requires exists x :: x in s
    ensures m in s && forall x :: x in s ==> x <= m
  {
    MaximumExists(s);
    var m :| m in s && forall x :: x in s ==> x <= m;
    m
  }

  /**
   * `COALESCE(MAX(chat_id), 0) + 1` over the user's sessions: 1 for a user
   * with no chat, else one more than their largest chat id, so it is larger
   * than every chat id the user has.
   */
  function NextChatId(sessions: map<SessionKey, int>, user: int): (id: int)
    ensures forall c :: c in ChatIds(sessions, user) ==> c < id
    ensures (forall c :: c !in ChatIds(sessions, user)) ==> id == 1
    ensures (exists c :: c in ChatIds(sessions, user)) ==> id - 1 in ChatIds(sessions, user)
  {
    var ids := ChatIds(sessions, user);
    if exists c :: c in ids then Maximum(ids) + 1 else 1
  }

  /** The rows of `sessions` that belong to `user`. */
  function SessionsOf(sessions: map<SessionKey, int>, user: int): map<SessionKey, int>
  {
    map k | k in sessions && k.user == user :: sessions[k]
  }

  /** What `list_chats` lists for `user`, before ordering. */
  function ChatRowsOf(sessions: map<SessionKey, int>, user: int): set<ChatRow>
  {
    set k | k in sessions && k.user == user :: ChatRow(k.chat, sessions[k])
  }

  /** A user's listing names each of their chats once, with that chat's update time. */
  lemma ChatRowsAreSessions(sessions: map<SessionKey, int>, user: int)
    ensures forall r: ChatRow :: r in ChatRowsOf(sessions, user) <==>
              SessionKey(user, r.chat) in sessions && sessions[SessionKey(user, r.chat)] == r.updatedAt
    ensures forall r, s :: r in ChatRowsOf(sessions, user) && s in ChatRowsOf(sessions, user) && r.chat == s.chat ==> r == s
  {
    forall r: ChatRow | SessionKey(user, r.chat) in sessions && sessions[SessionKey(user, r.chat)] == r.updatedAt
      ensures r in ChatRowsOf(sessions, user)
    {
      var k := SessionKey(user, r.chat);
      assert ChatRow(k.chat, sessions[k]) == r;
    }
  }

  ghost predicate NewestFirst(rows: seq<ChatRow>)
  {
    forall i, j :: 0 <= i < j < |rows| ==> rows[i].updatedAt >= rows[j].updatedAt
  }

  lemma {:induction false} NewestExists(rows: set<ChatRow>)
    requires rows != {}
    ensures exists x :: x in rows && forall y :: y in rows ==> y.updatedAt <= x.updatedAt
  {
    var z :| z in rows;
    if rows != {z} {
      NewestExists(rows - {z});
      var x :| x in rows - {z} && forall y :: y in rows - {z} ==> y.updatedAt <= x.updatedAt;
      if z.updatedAt > x.updatedAt {
        assert forall y :: y in rows ==> y.updatedAt <= z.updatedAt;
      } else {
        assert forall y :: y in rows ==> y.updatedAt <= x.updatedAt;
      }
    }
  }

  /**
   * `ORDER BY updated_at DESC`: the rows, each once, newest first. Rows with
   * equal times may come in any order; this picks one such order.
   */
  ghost function NewestFirstOrder(rows: set<ChatRow>): (ordered: seq<ChatRow>)
    ensures |ordered| == |rows|
    ensures forall r :: r in ordered <==> r in rows
    ensures NewestFirst(ordered)
    decreases |rows|
  {
    if rows == {} then []
    else
      NewestExists(rows);
      var x :| x in rows && forall y :: y in rows ==> y.updatedAt <= x.updatedAt;
      [x] + NewestFirstOrder(rows - {x})
  }

  // ---------------------------------------------------------------- messages

  /** The messages of one (user, chat) pair, in insertion order. */
  function Thread(messages: seq<Message>, user: int, chat: int): (thread: seq<Message>)
    ensures |thread| <= |messages|
    ensures forall m :: m in thread <==> m in messages && m.user == user && m.chat == chat
  {
    if messages == [] then []
    else
      var last := messages[|messages| - 1];
      Thread(messages[..|messages| - 1], user, chat) + (if last.user == user && last.chat == chat then [last] else [])
  }

  /** All messages of one user, in insertion order. */
  function MessagesOf(messages: seq<Message>, user: int): (mine: seq<Message>)
    ensures forall m :: m in mine <==> m in messages && m.user == user
  {
    if messages == [] then []
    else
      var last := messages[|messages| - 1];
      MessagesOf(messages[..|messages| - 1], user) + (if last.user == user then [last] else [])
  }

  function Turns(thread: seq<Message>): (turns: seq<Turn>)
    ensures |turns| == |thread|
    ensures forall i :: 0 <= i < |thread| ==> turns[i] == Turn(thread[i].role, thread[i].content)
  {
    if thread == [] then [] else [Turn(thread[0].role, thread[0].content)] + Turns(thread[1..])
  }

  /**
   * `history(uid, chat_id, limit)`: the pair's messages as (role, content), in
   * insertion order. A positive limit keeps only the oldest `limit` of them;
   * no limit or a limit of 0 keeps all, and so does a negative one, which
   * SQLite reads as no limit.
   */
  function HistoryOf(messages: seq<Message>, user: int, chat: int, limit: Option<int>): (history: seq<Turn>)
    ensures var all := Turns(Thread(messages, user, chat));
            |history| <= |all| && history == all[..|history|]
            && (limit.Some? && limit.value > 0 ==> |history| == if limit.value < |all| then limit.value else |all|)
            && (limit.None? || limit.value <= 0 ==> |history| == |all|)
  {
    var all := Turns(Thread(messages, user, chat));
    if limit.Some? && limit.value > 0 && limit.value < |all| then all[..limit.value] else all
  }

  /** Rough token count of a history: a quarter of each message's length, rounded down. */
  function EstimateTokens(history: seq<Turn>): (n: nat)
    ensures 4 * n <= TotalLength(history) <= 4 * n + 3 * |history|
  {
    if history == [] then 0 else |history[0].content| / 4 + EstimateTokens(history[1..])
  }

  function TotalLength(history: seq<Turn>): nat
  {
    if history == [] then 0 else |history[0].content| + TotalLength(history[1..])
  }

  /** Appending a message adds its own estimate and leaves the rest alone. */
  lemma {:induction false} EstimateTokensAppend(history: seq<Turn>, t: Turn)
    ensures EstimateTokens(history + [t]) == EstimateTokens(history) + |t.content| / 4
  {
    if history != [] {
      assert (history + [t])[1..] == history[1..] + [t];
      EstimateTokensAppend(history[1..], t);
    }
  }

  /** The summation loop that computes the estimate of a history. */
  method Estimate(history: seq<Turn>) returns (n: nat)
    ensures n == EstimateTokens(history)
    ensures 4 * n <= TotalLength(history) <= 4 * n + 3 * |history|
  {
    n := 0;
    for i := 0 to |history|
      invariant n == EstimateTokens(history[..i])
    {
      assert history[..i + 1] == history[..i] + [history[i]];
      EstimateTokensAppend(history[..i], history[i]);
      n := n + |history[i].content| / 4;
    }
    assert history[..|history|] == history;
  }

  // ---------------------------------------------------------------- quotas

  /** The `used_tokens` of (user, day), a missing row read as 0. */
  function UsedTokens(quotas: map<QuotaKey, int>, user: int, day: string): int
  {
    var key := QuotaKey(user, day);
    if key in quotas then quotas[key] else 0
  }

  /** `can_spend`: the day's usage plus `tokens` stays within the limit. */
  predicate Within(quotas: map<QuotaKey, int>, limit: int, user: int, day: string, tokens: int)
  {
    UsedTokens(quotas, user, day) + tokens <= limit
  }

  /**
   * The upsert of `add_tokens`: the (user, day) counter is raised by exactly
   * `tokens`, created at `tokens` when missing; every other counter is kept.
   */
  function Charge(quotas: map<QuotaKey, int>, user: int, day: string, tokens: int): (after: map<QuotaKey, int>)
    ensures QuotaKey(user, day) in after
    ensures UsedTokens(after, user, day) == UsedTokens(quotas, user, day) + tokens
    ensures forall k :: k != QuotaKey(user, day) ==> (k in after <==> k in quotas) && (k in quotas ==> after[k] == quotas[k])
  {
    quotas[QuotaKey(user, day) := UsedTokens(quotas, user, day) + tokens]
  }

  /** The rows of `quotas` that belong to `user`. */
  function QuotasOf(quotas: map<QuotaKey, int>, user: int): map<QuotaKey, int>
  {
    map k | k in quotas && k.user == user :: quotas[k]
  }

  /**
   * Charging `tokens` and then asking about `more` is asking about both at
   * once before the charge; other users' and other days' answers do not move.
   */
  lemma ChargeThenWithin(quotas: map<QuotaKey, int>, limit: int, user: int, day: string, tokens: int)
    ensures forall more :: Within(Charge(quotas, user, day, tokens), limit, user, day, more) <==> Within(quotas, limit, user, day, tokens + more)
    ensures forall u, d, more :: QuotaKey(u, d) != QuotaKey(user, day) ==>
              (Within(Charge(quotas, user, day, tokens), limit, u, d, more) <==> Within(quotas, limit, u, d, more))
  {
  }

  /** A non-negative charge never lowers a counter. */
  lemma ChargeOnlyGrows(quotas: map<QuotaKey, int>, user: int, day: string, tokens: int)
    requires tokens >= 0
    ensures forall u, d :: UsedTokens(Charge(quotas, user, day, tokens), u, d) >= UsedTokens(quotas, u, d)
  {
  }

  // ---------------------------------------------------------------- per-user views

  function ActiveOf(activeChat: map<int, int>, user: int): Option<int>
  {
    if user in activeChat then Some(activeChat[user]) else None
  }

  lemma SessionsOfUpdate(sessions: map<SessionKey, int>, k: SessionKey, v: int, user: int)
    requires k.user != user
    ensures SessionsOf(sessions[k := v], user) == SessionsOf(sessions, user)
  {
  }

  lemma QuotasOfUpdate(quotas: map<QuotaKey, int>, k: QuotaKey, v: int, user: int)
    requires k.user != user
    ensures QuotasOf(quotas[k := v], user) == QuotasOf(quotas, user)
  {
  }

  /** What `/use` did. */
  /** The largest value `sqlite3` binds as an `INTEGER`; a larger Python int raises when bound. */
  const MaxInteger: int := 0x7fff_ffff_ffff_ffff

  datatype UseOutcome =
    | Ignored           // the user may not use the bot: nothing is sent
    | UsageHint         // the argument is not a chat number
    | NoSuchChat        // the user has no chat with that number
    | TooLarge          // binding the number to the query raises: nothing is sent
    | Switched(chat: int)

  // ---------------------------------------------------------------- the store

  class ChatStore {
    var sessions: map<SessionKey, int>
    var messages: seq<Message>
    var activeChat: map<int, int>
    var quotas: map<QuotaKey, int>
    /** `DAILY_LIMIT`, read once from the `USER_DAILY_TOKENS` setting. */
    const dailyLimit: int

    /**
     * Every chat id is positive, every user's active chat is one of that
     * user's sessions, and no quota counter is negative.
     */
    ghost predicate Valid()
      reads this
    {
      (forall k :: k in sessions ==> k.chat >= 1)
      && (forall u :: u in activeChat ==> SessionKey(u, activeChat[u]) in sessions)
      && (forall k :: k in quotas ==> quotas[k] >= 0)
    }

    /** Nothing that belongs to a user other than `uid` has changed. */
    twostate predicate OtherUsersUnchanged(uid: int)
      reads this
    {
      forall u :: u != uid ==>
        SessionsOf(sessions, u) == SessionsOf(old(sessions), u)
        && MessagesOf(messages, u) == MessagesOf(old(messages), u)
        && ActiveOf(activeChat, u) == ActiveOf(old(activeChat), u)
        && QuotasOf(quotas, u) == QuotasOf(old(quotas), u)
    }

    constructor (dailyLimit: int)
      ensures Valid()
      ensures sessions == map[] && messages == [] && activeChat == map[] && quotas == map[]
      ensures this.dailyLimit == dailyLimit
    {
      sessions, messages, activeChat, quotas := map[], [], map[], map[];
      this.dailyLimit := dailyLimit;
    }

    /** `set_active`: the user's active chat becomes `chat`; it keeps `Valid` when that session exists. */
    method SetActive(uid: int, chat: int)
      modifies this
      ensures activeChat == old(activeChat)[uid := chat]
      ensures sessions == old(sessions) && messages == old(messages) && quotas == old(quotas)
      ensures old(Valid()) && SessionKey(uid, chat) in sessions ==> Valid()
      ensures OtherUsersUnchanged(uid)
    {
      activeChat := activeChat[uid := chat];
    }

    /**
     * `new_chat`: a session with a chat id larger than all the user's others
     * is added at time `now` and made active.
     */
    method NewChat(uid: int, now: int) returns (id: int)
      requires Valid()
      modifies this
      ensures Valid()
      ensures id == NextChatId(old(sessions), uid)
      ensures SessionKey(uid, id) !in old(sessions) && id >= 1
      ensures sessions == old(sessions)[SessionKey(uid, id) := now]
      ensures activeChat == old(activeChat)[uid := id]
      ensures messages == old(messages) && quotas == old(quotas)
      ensures OtherUsersUnchanged(uid)
    {
      var newId := NextChatId(sessions, uid);
      assert newId !in ChatIds(sessions, uid);
      assert newId >= 1 by {
        if exists c :: c in ChatIds(sessions, uid) {
          var k :| k in sessions && k.user == uid && k.chat == newId - 1;
        }
      }
      sessions := sessions[SessionKey(uid, newId) := now];
      forall u | u != uid ensures SessionsOf(sessions, u) == SessionsOf(old(sessions), u) {
        SessionsOfUpdate(old(sessions), SessionKey(uid, newId), now, u);
      }
      SetActive(uid, newId);
      id := newId;
    }

    /**
     * `ensure_active_chat`: the active chat when the user has one, with
     * nothing changed; otherwise a new chat. Either way the result is the
     * user's active chat and one of their sessions.
     */
    method EnsureActiveChat(uid: int, now: int) returns (id: int)
      requires Valid()
      modifies this
      ensures Valid()
      ensures uid in activeChat && activeChat[uid] == id && SessionKey(uid, id) in sessions
      ensures uid in old(activeChat) ==>
                id == old(activeChat)[uid] && sessions == old(sessions) && activeChat == old(activeChat)
      ensures uid !in old(activeChat) ==>
                id == NextChatId(old(sessions), uid)
                && sessions == old(sessions)[SessionKey(uid, id) := now]
                && activeChat == old(activeChat)[uid := id]
      ensures messages == old(messages) && quotas == old(quotas)
      ensures OtherUsersUnchanged(uid)
    {
      if uid in activeChat {
        id := activeChat[uid];
      } else {
        id := NewChat(uid, now);
      }
    }

    /** `list_chats`: the user's chats with their update times, newest first. */
    ghost function ListChats(uid: int): (rows: seq<ChatRow>)
      reads this
      ensures forall r: ChatRow :: r in rows <==> SessionKey(uid, r.chat) in sessions && sessions[SessionKey(uid, r.chat)] == r.updatedAt
      ensures |rows| == |ChatRowsOf(sessions, uid)|
      ensures NewestFirst(rows)
    {
      ChatRowsAreSessions(sessions, uid);
      NewestFirstOrder(ChatRowsOf(sessions, uid))
    }

    /** `history`. */
    function History(uid: int, chat: int, limit: Option<int>): seq<Turn>
      reads this
    {
      HistoryOf(messages, uid, chat, limit)
    }

    /**
     * `add_msg`: the message goes at the end of the pair's thread, and the
     * session, if there is one, is stamped with `now`.
     */
    method AddMsg(uid: int, chat: int, role: string, content: string, now: int)
      requires Valid()
      modifies this
      ensures Valid()
      ensures messages == old(messages) + [Message(uid, chat, role, content, now)]
      ensures sessions == if SessionKey(uid, chat) in old(sessions) then old(sessions)[SessionKey(uid, chat) := now] else old(sessions)
      ensures activeChat == old(activeChat) && quotas == old(quotas)
      ensures History(uid, chat, None) == old(History(uid, chat, None)) + [Turn(role, content)]
      ensures forall u, c :: u != uid || c != chat ==> Thread(messages, u, c) == Thread(old(messages), u, c)
      ensures OtherUsersUnchanged(uid)
    {
      var key := SessionKey(uid, chat);
      messages := messages + [Message(uid, chat, role, content, now)];
      assert messages[..|messages| - 1] == old(messages);
      if key in sessions {
        sessions := sessions[key := now];
        forall u | u != uid ensures SessionsOf(sessions, u) == SessionsOf(old(sessions), u) {
          SessionsOfUpdate(old(sessions), key, now, u);
        }
      }
      TurnsAppend(Thread(old(messages), uid, chat), Message(uid, chat, role, content, now));
    }

    /**
     * The start of answering a text message: the text is stored as a user
     * message of the active chat (created when missing), the whole thread is
     * estimated, and the answer is allowed when that estimate fits in what is
     * left of the day's quota.
     */
    method AcceptText(uid: int, text: string, now: int, day: string) returns (chat: int, estimate: nat, allowed: bool)
      requires Valid()
      modifies this
      ensures Valid()
      ensures uid in activeChat && activeChat[uid] == chat && SessionKey(uid, chat) in sessions
      ensures uid in old(activeChat) ==> chat == old(activeChat)[uid]
      ensures uid !in old(activeChat) ==> chat == NextChatId(old(sessions), uid)
      ensures sessions == old(sessions)[SessionKey(uid, chat) := now]
      ensures activeChat == old(activeChat)[uid := chat]
      ensures messages == old(messages) + [Message(uid, chat, "user", text, now)]
      ensures History(uid, chat, None) == old(History(uid, chat, None)) + [Turn("user", text)]
      ensures estimate == EstimateTokens(History(uid, chat, None))
      ensures estimate == EstimateTokens(old(History(uid, chat, None))) + |text| / 4
      ensures allowed <==> CanSpend(uid, day, estimate)
      ensures quotas == old(quotas)
      ensures OtherUsersUnchanged(uid)
    {
      chat := EnsureActiveChat(uid, now);
      ghost var before := History(uid, chat, None);
      assert before == old(History(uid, chat, None));
      AddMsg(uid, chat, "user", text, now);
      var thread := HistoryOf(messages, uid, chat, None);
      estimate := Estimate(thread);
      EstimateTokensAppend(before, Turn("user", text));
      allowed := Within(quotas, dailyLimit, uid, day, estimate);
    }

    /** `can_spend`. */
    predicate CanSpend(uid: int, day: string, tokens: int)
      reads this
    {
      Within(quotas, dailyLimit, uid, day, tokens)
    }

    /**
     * `add_tokens`: the (user, day) counter goes up by exactly `tokens`; after
     * it, spending `more` is allowed exactly when spending `tokens + more` was.
     */
    method AddTokens(uid: int, day: string, tokens: int)
      requires Valid()
      requires tokens >= 0
      modifies this
      ensures Valid()
      ensures quotas == Charge(old(quotas), uid, day, tokens)
      ensures UsedTokens(quotas, uid, day) == old(UsedTokens(quotas, uid, day)) + tokens
      ensures forall more :: CanSpend(uid, day, more) <==> old(CanSpend(uid, day, tokens + more))
      ensures forall u, d :: UsedTokens(quotas, u, d) >= old(UsedTokens(quotas, u, d))
      ensures sessions == old(sessions) && messages == old(messages) && activeChat == old(activeChat)
      ensures OtherUsersUnchanged(uid)
    {
      var key := QuotaKey(uid, day);
      quotas := Charge(quotas, uid, day, tokens);
      ChargeThenWithin(old(quotas), dailyLimit, uid, day, tokens);
      ChargeOnlyGrows(old(quotas), uid, day, tokens);
      forall u | u != uid ensures QuotasOf(quotas, u) == QuotasOf(old(quotas), u) {
        QuotasOfUpdate(old(quotas), key, UsedTokens(old(quotas), uid, day) + tokens, u);
      }
    }

    /**
     * The `/use <n>` command: for a user who may use the bot, a well-formed
     * argument naming one of their sessions becomes their active chat;
     * nothing else changes the store. A number above `MaxInteger` passes the
     * argument check but makes the session lookup raise, so nothing is sent.
     */
    method Use(uid: int, text: string, allowed: set<string>) returns (outcome: UseOutcome)
      requires Valid()
      modifies this
      ensures Valid()
      ensures outcome == Ignored <==> !Access.MayUse(uid, allowed)
      ensures outcome == UsageHint <==> Access.MayUse(uid, allowed) && UseCommand.UseArg(text).None?
      ensures outcome == TooLarge <==>
                Access.MayUse(uid, allowed) && UseCommand.UseArg(text).Some? && UseCommand.UseArg(text).value > MaxInteger
      ensures outcome == NoSuchChat <==>
                Access.MayUse(uid, allowed) && UseCommand.UseArg(text).Some? && UseCommand.UseArg(text).value <= MaxInteger
                && SessionKey(uid, UseCommand.UseArg(text).value) !in old(sessions)
      ensures outcome.Switched? ==>
                Access.MayUse(uid, allowed) && UseCommand.UseArg(text) == Some(outcome.chat)
                && SessionKey(uid, outcome.chat) in sessions
                && activeChat == old(activeChat)[uid := outcome.chat]
      ensures !outcome.Switched? ==> activeChat == old(activeChat)
      ensures sessions == old(sessions) && messages == old(messages) && quotas == old(quotas)
      ensures OtherUsersUnchanged(uid)
    {
      if !Access.MayUse(uid, allowed) {
        return Ignored;
      }
      var arg := UseCommand.UseArg(text);
      if arg.None? {
        return UsageHint;
      }
      var chat := arg.value;
      if chat > MaxInteger {
        return TooLarge;
      }
      if SessionKey(uid, chat) !in sessions {
        return NoSuchChat;
      }
      SetActive(uid, chat);
      outcome := Switched(chat);
    }
  }

  lemma TurnsAppend(thread: seq<Message>, m: Message)
    ensures Turns(thread + [m]) == Turns(thread) + [Turn(m.role, m.content)]
  {
    var left, right := Turns(thread + [m]), Turns(thread) + [Turn(m.role, m.content)];
    assert |left| == |right|;
    forall i | 0 <= i < |left| ensures left[i] == right[i] {
      assert (thread + [m])[i] == if i < |thread| then thread[i] else m;
    }
  }
}
