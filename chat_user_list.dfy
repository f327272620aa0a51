/** The conversation list of the messages page
    (components/chat/ChatUserList.tsx): the last message exchanged with each
    partner, the partners ordered by that message's timestamp, newest first,
    and the rows drawn for the partners the user directory knows. */
module ChatUserList {
  import opened Wrappers
  import opened Seqs
  import opened Catalog
  import Messages

  // ---------------------------------------------------------------------
  // Last messages
  // ---------------------------------------------------------------------

  predicate Involves(m: Messages.Message, userId: string)
  {
    m.senderId == userId || m.receiverId == userId
  }

  function InvolvesUser(userId: string): Messages.Message -> bool
  {
    (m: Messages.Message) => Involves(m, userId)
  }

  /** `userMessages[userMessages.length - 1]`: the last message the user
      sent or received, whoever the other party is; none when there is no
      such message. */
  function LastMessage(ms: seq<Messages.Message>, userId: string): (r: Option<Messages.Message>)
    ensures r.None? <==> forall k :: 0 <= k < |ms| ==> !Involves(ms[k], userId)
    ensures r.Some? ==> exists i :: (0 <= i < |ms| && ms[i] == r.value && Involves(ms[i], userId)
                                     && forall k :: i < k < |ms| ==> !Involves(ms[k], userId))
  {
    var um := Filter(ms, InvolvesUser(userId));
    FilterEmptyIff(ms, InvolvesUser(userId));
    if |um| == 0 then None
    else
      FilterLast(ms, InvolvesUser(userId));
      Some(um[|um| - 1])
  }

  /** The `reduce` building `lastMessages`: one entry per partner, holding
      that partner's last message. */
  method LastMessages(users: seq<string>, ms: seq<Messages.Message>) returns (acc: map<string, Option<Messages.Message>>)
    ensures forall u :: u in acc <==> u in users
    ensures forall u :: u in acc ==> acc[u] == LastMessage(ms, u)
  {
    acc := map[];
    var i := 0;
    while i < |users|
      invariant 0 <= i <= |users|
      invariant forall u :: u in acc <==> u in users[..i]
      invariant forall u :: u in acc ==> acc[u] == LastMessage(ms, u)
    {
      acc := acc[users[i] := LastMessage(ms, users[i])];
      assert users[..i + 1] == users[..i] + [users[i]];
      i := i + 1;
    }
    assert users[..|users|] == users;
  }

  /** `lastMessages[userId]`: `undefined` for a user with no entry. */
  function LookUp(lastMessages: map<string, Option<Messages.Message>>, userId: string): (r: Option<Messages.Message>)
    ensures userId !in lastMessages ==> r.None?
    ensures userId in lastMessages ==> r == lastMessages[userId]
  {
    if userId in lastMessages then lastMessages[userId] else None
  }

  // ---------------------------------------------------------------------
  // Ordering by the last message
  // ---------------------------------------------------------------------

  /** `lastMessages[a]?.createdAt || ''`. */
  function SortKey(lastMessages: map<string, Option<Messages.Message>>, userId: string): (key: string)
    ensures LookUp(lastMessages, userId).None? ==> key == ""
    ensures LookUp(lastMessages, userId).Some? ==> key == LookUp(lastMessages, userId).value.createdAt
  {
    match LookUp(lastMessages, userId)
    case None => ""
    case Some(m) => m.createdAt
  }

  /** Lexicographic order on strings by character code. */
  predicate LexLessEq(a: string, b: string)
    decreases |a|
  {
    |a| == 0 || (|b| > 0 && (a[0] < b[0] || (a[0] == b[0] && LexLessEq(a[1..], b[1..]))))
  }

  /** Any two strings are ordered one way or the other, the order chains,
      and only the empty string is below it. */
  lemma {:induction false} LexTotal(a: string, b: string)
    ensures LexLessEq(a, b) || LexLessEq(b, a)
    decreases |a|
  {
    if |a| > 0 && |b| > 0 && a[0] == b[0] {
      LexTotal(a[1..], b[1..]);
    }
  }

  lemma {:induction false} LexTransitive(a: string, b: string, c: string)
    requires LexLessEq(a, b) && LexLessEq(b, c)
    ensures LexLessEq(a, c)
    decreases |a|
  {
    if |a| > 0 && a[0] == b[0] && b[0] == c[0] {
      LexTransitive(a[1..], b[1..], c[1..]);
    }
  }

  lemma {:induction false} LexBelowEmpty(a: string)
    ensures LexLessEq("", a)
    ensures LexLessEq(a, "") <==> a == ""
  {
  }

  /** `lastMessageB.localeCompare(lastMessageA)` as a "before or tied"
      test: `a` may stay ahead of `b` when `b`'s key is not after `a`'s. */
  predicate NotAfter(lastMessages: map<string, Option<Messages.Message>>, a: string, b: string)
  {
    LexLessEq(SortKey(lastMessages, b), SortKey(lastMessages, a))
  }

  /** Newest last message first. */
  predicate SortedNewestFirst(s: seq<string>, lastMessages: map<string, Option<Messages.Message>>)
  {
    forall i, j :: 0 <= i < j < |s| ==> NotAfter(lastMessages, s[i], s[j])
  }

  /** One insertion step: the new user goes ahead of the first user whose key
      is not later than theirs, so a user keeps ahead of any later user with
      the same key. */
  function InsertByKey(u: string, sorted: seq<string>, lastMessages: map<string, Option<Messages.Message>>)
    : seq<string>
  {
    if |sorted| == 0 then [u]
    else if NotAfter(lastMessages, u, sorted[0]) then [u] + sorted
    else [sorted[0]] + InsertByKey(u, sorted[1..], lastMessages)
  }

  /** `[...users].sort(...)`: a copy of the partners, newest conversation
      first, users with equal keys in their given order. */
  function SortedUsers(users: seq<string>, lastMessages: map<string, Option<Messages.Message>>): seq<string>
  {
    if |users| == 0 then []
    else InsertByKey(users[0], SortedUsers(users[1..], lastMessages), lastMessages)
  }

  /** Inserting adds the one user and loses none. */
  lemma {:induction false} InsertByKeyMembers(u: string, sorted: seq<string>, lastMessages: map<string, Option<Messages.Message>>)
    ensures multiset(InsertByKey(u, sorted, lastMessages)) == multiset(sorted) + multiset{u}
  {
    if |sorted| > 0 {
      HeadTail(sorted);
      if !NotAfter(lastMessages, u, sorted[0]) {
        InsertByKeyMembers(u, sorted[1..], lastMessages);
      }
    }
  }

  lemma {:induction false} InsertByKeySorted(u: string, sorted: seq<string>, lastMessages: map<string, Option<Messages.Message>>)
    requires SortedNewestFirst(sorted, lastMessages)
    ensures SortedNewestFirst(InsertByKey(u, sorted, lastMessages), lastMessages)
  {
    if |sorted| == 0 {
    } else if NotAfter(lastMessages, u, sorted[0]) {
      InsertAtFrontSorted(u, sorted, lastMessages);
    } else {
      InsertByKeySorted(u, sorted[1..], lastMessages);
      InsertBehindSorted(u, sorted, lastMessages);
    }
  }

  lemma InsertAtFrontSorted(u: string, sorted: seq<string>, lastMessages: map<string, Option<Messages.Message>>)
    requires SortedNewestFirst(sorted, lastMessages)
    requires |sorted| > 0 && NotAfter(lastMessages, u, sorted[0])
    ensures SortedNewestFirst([u] + sorted, lastMessages)
  {
    var r := [u] + sorted;
    forall j | 1 <= j < |r|
      ensures NotAfter(lastMessages, u, r[j])
    {
      if j > 1 {
        LexTransitive(SortKey(lastMessages, r[j]), SortKey(lastMessages, sorted[0]), SortKey(lastMessages, u));
      }
    }
  }

  lemma InsertBehindSorted(u: string, sorted: seq<string>, lastMessages: map<string, Option<Messages.Message>>)
    requires SortedNewestFirst(sorted, lastMessages)
    requires |sorted| > 0 && !NotAfter(lastMessages, u, sorted[0])
    requires SortedNewestFirst(InsertByKey(u, sorted[1..], lastMessages), lastMessages)
    ensures SortedNewestFirst([sorted[0]] + InsertByKey(u, sorted[1..], lastMessages), lastMessages)
  {
    var rest := InsertByKey(u, sorted[1..], lastMessages);
    HeadNotAfterInserted(u, sorted, lastMessages);
    var r := [sorted[0]] + rest;
    forall i, j | 0 <= i < j < |r|
      ensures NotAfter(lastMessages, r[i], r[j])
    {
      if i > 0 {
        assert r[i] == rest[i - 1] && r[j] == rest[j - 1];
      } else {
        assert r[0] == sorted[0] && r[j] == rest[j - 1];
      }
    }
  }

  /** The head that `u` sorts behind is not after anything `u` is inserted
      into. */
  lemma HeadNotAfterInserted(u: string, sorted: seq<string>, lastMessages: map<string, Option<Messages.Message>>)
    requires SortedNewestFirst(sorted, lastMessages)
    requires |sorted| > 0 && !NotAfter(lastMessages, u, sorted[0])
    ensures forall j :: 0 <= j < |InsertByKey(u, sorted[1..], lastMessages)| ==>
      NotAfter(lastMessages, sorted[0], InsertByKey(u, sorted[1..], lastMessages)[j])
  {
    var rest := InsertByKey(u, sorted[1..], lastMessages);
    InsertByKeyMembers(u, sorted[1..], lastMessages);
    LexTotal(SortKey(lastMessages, u), SortKey(lastMessages, sorted[0]));
    forall j | 0 <= j < |rest|
      ensures NotAfter(lastMessages, sorted[0], rest[j])
    {
      assert rest[j] in multiset(rest);
      if rest[j] != u {
        assert rest[j] in multiset(sorted[1..]);
        var k :| 0 <= k < |sorted[1..]| && sorted[1..][k] == rest[j];
        assert sorted[k + 1] == rest[j];
      }
    }
  }


  /** The order is a permutation of the partners, newest conversation
      first. */
  lemma {:induction false} SortedUsersCorrect(users: seq<string>, lastMessages: map<string, Option<Messages.Message>>)
    ensures multiset(SortedUsers(users, lastMessages)) == multiset(users)
    ensures SortedNewestFirst(SortedUsers(users, lastMessages), lastMessages)
  {
    if |users| > 0 {
      SortedUsersCorrect(users[1..], lastMessages);
      InsertByKeyMembers(users[0], SortedUsers(users[1..], lastMessages), lastMessages);
      InsertByKeySorted(users[0], SortedUsers(users[1..], lastMessages), lastMessages);
      HeadTail(users);
      assert multiset(users) == multiset{users[0]} + multiset(users[1..]);
    }
  }

  lemma {:induction false} LexReflexive(a: string)
    ensures LexLessEq(a, a)
    decreases |a|
  {
    if |a| > 0 {
      LexReflexive(a[1..]);
    }
  }

  /** `u => (lastMessages[u]?.createdAt || '') === key`. */
  function HasKey(lastMessages: map<string, Option<Messages.Message>>, key: string): string -> bool
  {
    (u: string) => SortKey(lastMessages, u) == key
  }

  /** Inserting puts the new user ahead of every user already there with
      the same key, and moves none of them. */
  lemma {:induction false} InsertByKeyKeepsTies(u: string, sorted: seq<string>,
                                                lastMessages: map<string, Option<Messages.Message>>, key: string)
    ensures Filter(InsertByKey(u, sorted, lastMessages), HasKey(lastMessages, key)) ==
      (if SortKey(lastMessages, u) == key then [u] else []) + Filter(sorted, HasKey(lastMessages, key))
  {
    var p := HasKey(lastMessages, key);
    if |sorted| == 0 {
      FilterCons(u, [], p);
    } else if NotAfter(lastMessages, u, sorted[0]) {
      FilterCons(u, sorted, p);
    } else {
      InsertByKeyKeepsTies(u, sorted[1..], lastMessages, key);
      if SortKey(lastMessages, u) == key {
        BehindIsNoTie(u, sorted[0], lastMessages);
      }
      HeadTail(sorted);
      TieStep(sorted[0], InsertByKey(u, sorted[1..], lastMessages), sorted[1..], p,
              if SortKey(lastMessages, u) == key then [u] else []);
    }
  }

  /** A user that the new user goes behind has a different key. */
  lemma BehindIsNoTie(u: string, head: string, lastMessages: map<string, Option<Messages.Message>>)
    requires !NotAfter(lastMessages, u, head)
    ensures SortKey(lastMessages, head) != SortKey(lastMessages, u)
  {
    LexReflexive(SortKey(lastMessages, u));
  }

  lemma FilterSkipsHead<T>(head: T, s: seq<T>, p: T -> bool)
    requires !p(head)
    ensures Filter([head] + s, p) == Filter(s, p)
  {
    FilterCons(head, s, p);
  }

  /** Putting the same head before two sequences whose filters differ by a
      prefix keeps that difference, when the head does not pass a non-empty
      prefix's test. */
  lemma TieStep<T>(head: T, rest: seq<T>, tail: seq<T>, p: T -> bool, mine: seq<T>)
    requires Filter(rest, p) == mine + Filter(tail, p)
    requires mine != [] ==> !p(head)
    ensures Filter([head] + rest, p) == mine + Filter([head] + tail, p)
  {
    if mine == [] {
      FilterCons(head, rest, p);
      FilterCons(head, tail, p);
      assert Filter(rest, p) == Filter(tail, p);
    } else {
      FilterSkipsHead(head, rest, p);
      FilterSkipsHead(head, tail, p);
    }
  }

  /** The sort is stable: the users sharing any one key appear in the
      sorted list exactly as they appear among the partners. */
  lemma {:induction false} SortedUsersStable(users: seq<string>, lastMessages: map<string, Option<Messages.Message>>,
                                             key: string)
    ensures Filter(SortedUsers(users, lastMessages), HasKey(lastMessages, key)) == Filter(users, HasKey(lastMessages, key))
  {
    if |users| > 0 {
      SortedUsersStable(users[1..], lastMessages, key);
      InsertByKeyKeepsTies(users[0], SortedUsers(users[1..], lastMessages), lastMessages, key);
    }
  }

  /** Partners with no message, or whose last message has an empty
      timestamp, come after every partner whose last message has one. */
  lemma SilentPartnersLast(users: seq<string>, lastMessages: map<string, Option<Messages.Message>>, i: nat, j: nat)
    requires i < j < |SortedUsers(users, lastMessages)|
    requires SortKey(lastMessages, SortedUsers(users, lastMessages)[i]) == ""
    ensures SortKey(lastMessages, SortedUsers(users, lastMessages)[j]) == ""
  {
    SortedUsersCorrect(users, lastMessages);
    LexBelowEmpty(SortKey(lastMessages, SortedUsers(users, lastMessages)[j]));
  }

  // ---------------------------------------------------------------------
  // The rows
  // ---------------------------------------------------------------------

  /** One drawn row: the directory's user, their last message (its time and
      text are shown when there is one), and whether it is highlighted. */
  datatype Row = Row(user: User, lastMessage: Option<Messages.Message>, selected: bool)

  function UserWithId(userId: string): User -> bool
  {
    (u: User) => u.id == userId
  }

  /** `sortedUsers.map(...)`: a partner the directory does not know draws
      nothing; every other partner draws the first directory user with
      their id. */
  function Rows(sorted: seq<string>, directory: seq<User>, lastMessages: map<string, Option<Messages.Message>>,
                selectedUserId: Option<string>): (rows: seq<Row>)
    ensures |rows| <= |sorted|
    ensures forall k :: 0 <= k < |rows| ==>
      rows[k].user in directory && rows[k].user.id in sorted
      && rows[k].lastMessage == LookUp(lastMessages, rows[k].user.id)
      && (rows[k].selected <==> selectedUserId == Some(rows[k].user.id))
  {
    if |sorted| == 0 then []
    else
      var rest := Rows(sorted[1..], directory, lastMessages, selectedUserId);
      match Find(directory, UserWithId(sorted[0]))
      case None => rest
      case Some(u) =>
        var row := Row(u, LookUp(lastMessages, sorted[0]), selectedUserId == Some(sorted[0]));
        assert forall n :: 0 <= n < |rest| ==> ([row] + rest)[n + 1] == rest[n];
        [row] + rest
  }

  /** Every partner the directory knows gets a row: the one at position
      `k` of the order draws row `n`. */
  lemma {:induction false} RowCovers(sorted: seq<string>, directory: seq<User>,
                                     lastMessages: map<string, Option<Messages.Message>>, selectedUserId: Option<string>, k: nat)
      returns (n: nat)
    requires k < |sorted| && Find(directory, UserWithId(sorted[k])).Some?
    ensures n < |Rows(sorted, directory, lastMessages, selectedUserId)|
    ensures Rows(sorted, directory, lastMessages, selectedUserId)[n].user == Find(directory, UserWithId(sorted[k])).value
    decreases k
  {
    var known := Find(directory, UserWithId(sorted[0])).Some?;
    RowsStep(sorted, directory, lastMessages, selectedUserId);
    if k == 0 {
      n := 0;
    } else {
      assert sorted[k] == sorted[1..][k - 1];
      var m := RowCovers(sorted[1..], directory, lastMessages, selectedUserId, k - 1);
      n := if known then m + 1 else m;
    }
  }

  /** One step of `Rows`: row `n` of the rest is row `n + 1` when the head
      draws a row, and row `n` otherwise. */
  lemma RowsStep(sorted: seq<string>, directory: seq<User>,
                 lastMessages: map<string, Option<Messages.Message>>, selectedUserId: Option<string>)
    requires |sorted| > 0
    ensures var rows := Rows(sorted, directory, lastMessages, selectedUserId);
      var rest := Rows(sorted[1..], directory, lastMessages, selectedUserId);
      var head := Find(directory, UserWithId(sorted[0]));
      (head.Some? ==>
         (|rows| == |rest| + 1 && rows[0].user == head.value
          && forall m :: 0 <= m < |rest| ==> rows[m + 1] == rest[m]))
      && (head.None? ==> rows == rest)
  {
  }

  /** "No conversations yet" shows exactly when there are no partners. */
  function ShowsNoConversations(users: seq<string>, lastMessages: map<string, Option<Messages.Message>>): (shown: bool)
    ensures shown <==> users == []
  {
    SortedUsersCorrect(users, lastMessages);
    if users == [] then assert multiset(users) == multiset{}; true
    else assert users[0] in multiset(users); |SortedUsers(users, lastMessages)| == 0
  }

  /** The notice looks at the partners, not at the rows: when no partner is
      in the directory, the list is empty and says nothing. */
  lemma EmptyListWithoutNotice(users: seq<string>, directory: seq<User>,
                               lastMessages: map<string, Option<Messages.Message>>, selectedUserId: Option<string>)
    requires users != []
    requires forall k :: 0 <= k < |users| ==> Find(directory, UserWithId(users[k])).None?
    ensures Rows(SortedUsers(users, lastMessages), directory, lastMessages, selectedUserId) == []
    ensures !ShowsNoConversations(users, lastMessages)
  {
    var sorted := SortedUsers(users, lastMessages);
    SortedUsersCorrect(users, lastMessages);
    forall k | 0 <= k < |sorted|
      ensures Find(directory, UserWithId(sorted[k])).None?
    {
      assert sorted[k] in multiset(users);
      var i :| 0 <= i < |users| && users[i] == sorted[k];
    }
    NoRowsForUnknown(sorted, directory, lastMessages, selectedUserId);
  }

  lemma {:induction false} NoRowsForUnknown(sorted: seq<string>, directory: seq<User>,
                                           lastMessages: map<string, Option<Messages.Message>>, selectedUserId: Option<string>)
    requires forall k :: 0 <= k < |sorted| ==> Find(directory, UserWithId(sorted[k])).None?
    ensures Rows(sorted, directory, lastMessages, selectedUserId) == []
  {
    if |sorted| > 0 {
      assert forall k :: 0 <= k < |sorted[1..]| ==> sorted[1..][k] == sorted[k + 1];
      NoRowsForUnknown(sorted[1..], directory, lastMessages, selectedUserId);
    }
  }
}
