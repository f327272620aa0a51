/** The chat message store (store/messages.ts): the rows fetched from
    `chat_messages` turned into messages, the row a sent message inserts,
    the local effect of marking a sender's messages read, and which user's
    unread count is then refetched. The queries and the two remote
    procedures are not modelled: their results are parameters. */
module Messages {
  import opened Wrappers
  import opened Seqs

  /** A message; `createdAt` is the row's timestamp text, kept as it is. */
  datatype Message = Message(
    id: string, senderId: string, receiverId: string, content: string, createdAt: string, read: bool)

  /** A `chat_messages` row (sender_id, receiver_id, created_at, ...). */
  datatype MessageRow = MessageRow(
    id: string, senderId: string, receiverId: string, content: string, createdAt: string, read: bool)

  /** The row `sendMessage` inserts: no id and no timestamp, which the
      database supplies. */
  datatype MessageInsert = MessageInsert(senderId: string, receiverId: string, content: string, read: bool)

  // ---------------------------------------------------------------------
  // Rows and messages
  // ---------------------------------------------------------------------

  function MessageOfRow(row: MessageRow): (m: Message)
    ensures m.id == row.id && m.senderId == row.senderId && m.receiverId == row.receiverId
      && m.content == row.content && m.createdAt == row.createdAt && m.read == row.read
  {
    Message(row.id, row.senderId, row.receiverId, row.content, row.createdAt, row.read)
  }

  /** The row a message was read from. */
  function RowOfMessage(m: Message): (row: MessageRow)
  {
    MessageRow(m.id, m.senderId, m.receiverId, m.content, m.createdAt, m.read)
  }

  /** `data.map(...)` in `fetchMessages`: one message per row, in the
      order the query returns them. */
  function MessagesOfRows(rows: seq<MessageRow>): (ms: seq<Message>)
    ensures |ms| == |rows|
    ensures forall i :: 0 <= i < |rows| ==> ms[i] == MessageOfRow(rows[i])
  {
    seq(|rows|, i requires 0 <= i < |rows| => MessageOfRow(rows[i]))
  }

  /** The mapping loses nothing: mapping the messages back gives the rows
      again, and a message survives the trip to a row and back. */
  lemma RowMappingRoundTrip(rows: seq<MessageRow>, m: Message)
    ensures var ms := MessagesOfRows(rows);
      forall i :: 0 <= i < |rows| ==> RowOfMessage(ms[i]) == rows[i]
    ensures MessageOfRow(RowOfMessage(m)) == m
  {
  }

  /** `sendMessage`'s insert: the given sender, receiver and content, always
      unread. */
  function SendPayload(senderId: string, receiverId: string, content: string): (row: MessageInsert)
    ensures row.senderId == senderId && row.receiverId == receiverId && row.content == content && !row.read
  {
    MessageInsert(senderId, receiverId, content, false)
  }

  // ---------------------------------------------------------------------
  // Marking read
  // ---------------------------------------------------------------------

  /** The local update of `markAsRead(senderId)`: every message from that
      sender is marked read, whoever it was sent to; the others are kept. */
  function MarkRead(ms: seq<Message>, senderId: string): (r: seq<Message>)
    ensures |r| == |ms|
    ensures forall i :: 0 <= i < |ms| && ms[i].senderId == senderId ==> r[i] == ms[i].(read := true)
    ensures forall i :: 0 <= i < |ms| && ms[i].senderId != senderId ==> r[i] == ms[i]
  {
    seq(|ms|, i requires 0 <= i < |ms| => if ms[i].senderId == senderId then ms[i].(read := true) else ms[i])
  }

  /** Marking twice is marking once; and afterwards no message of that
      sender is unread, while every message's other fields are as before. */
  lemma MarkReadLaws(ms: seq<Message>, senderId: string)
    ensures MarkRead(MarkRead(ms, senderId), senderId) == MarkRead(ms, senderId)
    ensures forall i :: 0 <= i < |ms| && MarkRead(ms, senderId)[i].senderId == senderId ==> MarkRead(ms, senderId)[i].read
    ensures forall i :: 0 <= i < |ms| ==> MarkRead(ms, senderId)[i].(read := ms[i].read) == ms[i]
  {
  }

  /** The receiver is not looked at: a message from the sender to a third
      user is marked too. */
  lemma MarkReadIgnoresReceiver(ms: seq<Message>, senderId: string, i: nat)
    requires i < |ms| && ms[i].senderId == senderId
    ensures MarkRead(ms, senderId)[i].read && MarkRead(ms, senderId)[i].receiverId == ms[i].receiverId
  {
  }

  function ReceivedByOther(senderId: string): Message -> bool
  {
    (m: Message) => m.receiverId != senderId
  }

  /** `messages.find(m => m.receiverId !== senderId)?.receiverId`, used only
      when truthy: the user whose unread count is refetched after marking. */
  function RecountUser(ms: seq<Message>, senderId: string): (u: Option<string>)
    ensures u.Some? ==> u.value != "" && u.value != senderId
    ensures u.Some? ==> exists i :: (0 <= i < |ms| && ms[i].receiverId == u.value
                                     && forall k :: 0 <= k < i ==> ms[k].receiverId == senderId)
    ensures u.None? <==> (forall k :: 0 <= k < |ms| ==> ms[k].receiverId == senderId)
                          || Find(ms, ReceivedByOther(senderId)).value.receiverId == ""
  {
    match Find(ms, ReceivedByOther(senderId))
    case None => None
    case Some(m) => if m.receiverId == "" then None else Some(m.receiverId)
  }

  /** Marking read does not change receivers, so the recount user is the
      same whether it is looked up before or after the local update. */
  lemma RecountUserUnchangedByMarking(ms: seq<Message>, senderId: string)
    ensures RecountUser(MarkRead(ms, senderId), senderId) == RecountUser(ms, senderId)
  {
    var r := MarkRead(ms, senderId);
    forall i | 0 <= i < |ms|
      ensures ReceivedByOther(senderId)(r[i]) == ReceivedByOther(senderId)(ms[i])
      ensures r[i].receiverId == ms[i].receiverId
    {
    }
    FindIndexCongruent(ms, r, ReceivedByOther(senderId));
  }

  /** Two sequences of the same length whose elements `p` judges alike have
      their first `p`-element at the same index. */
  lemma {:induction false} FindIndexCongruent<T>(s: seq<T>, t: seq<T>, p: T -> bool)
    requires |s| == |t|
    requires forall i :: 0 <= i < |s| ==> p(s[i]) == p(t[i])
    ensures FindIndex(s, p) == FindIndex(t, p)
    decreases |s|
  {
    if |s| > 0 && !p(s[0]) {
      assert forall i :: 0 <= i < |s| - 1 ==> s[1..][i] == s[i + 1] && t[1..][i] == t[i + 1];
      FindIndexCongruent(s[1..], t[1..], p);
    }
  }

  /** `data || 0`: a missing count reads as 0. */
  function UnreadCountOf(data: Option<int>): (n: int)
    ensures data.None? ==> n == 0
    ensures data.Some? ==> n == data.value
  {
    data.GetOr(0)
  }

  // ---------------------------------------------------------------------
  // The store
  // ---------------------------------------------------------------------

  class MessageStore {
    var messages: seq<Message>
    var loading: bool
    var error: Option<string>
    var unreadCount: int

    constructor ()
      ensures messages == [] && !loading && error.None? && unreadCount == 0
    {
      messages := [];
      loading := false;
      error := None;
      unreadCount := 0;
    }

    /** The start of `fetchMessages`. */
    method BeginFetch()
      modifies this
      ensures loading && error.None? && messages == old(messages) && unreadCount == old(unreadCount)
    {
      loading := true;
      error := None;
    }

    /** A successful query: the messages are replaced by the mapped rows. */
    method FetchSucceeded(rows: seq<MessageRow>)
      modifies this
      ensures messages == MessagesOfRows(rows) && !loading
      ensures error == old(error) && unreadCount == old(unreadCount)
    {
      messages := MessagesOfRows(rows);
      loading := false;
    }

    /** A failed query keeps the old messages and stores the error. */
    method FetchFailed(message: string)
      modifies this
      ensures error == Some(message) && !loading
      ensures messages == old(messages) && unreadCount == old(unreadCount)
    {
      error := Some(message);
      loading := false;
    }

    /** `markAsRead` after the remote procedure succeeded: the local update,
        then the user whose count is to be refetched, if any. */
    method MarkAsRead(senderId: string) returns (recount: Option<string>)
      modifies this
      ensures messages == MarkRead(old(messages), senderId)
      ensures recount == RecountUser(messages, senderId)
      ensures loading == old(loading) && error == old(error) && unreadCount == old(unreadCount)
    {
      messages := MarkRead(messages, senderId);
      recount := RecountUser(messages, senderId);
    }

    /** `getUnreadCount` after the remote procedure returned `data`. */
    method SetUnreadCount(data: Option<int>)
      modifies this
      ensures unreadCount == UnreadCountOf(data)
      ensures messages == old(messages) && loading == old(loading) && error == old(error)
    {
      unreadCount := UnreadCountOf(data);
    }
  }
}
