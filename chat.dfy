/** The messages page (pages/Chat.tsx) and its conversation pane
    (components/chat/ChatWindow.tsx): whom the signed-in user can chat with,
    which sender is marked read when a partner is selected, which messages
    a conversation shows, and the composer's guard against blank or
    overlapping sends. The store calls are not modelled: the page reports
    what it would send, and whether the send went through is a parameter. */
module Chat {
  import opened Wrappers
  import opened Seqs
  import opened Text
  import opened Catalog
  import TP = TrainingPlans
  import PlanVisibility
  import Messages

  // ---------------------------------------------------------------------
  // Chat partners
  // ---------------------------------------------------------------------

  function HasAthlete(): TP.TrainingPlan -> bool
  {
    (p: TP.TrainingPlan) => Truthy(p.athleteId)
  }

  /** `plans.filter(plan => plan.athleteId).map(plan => plan.athleteId!)`. */
  function PlanAthletes(plans: seq<TP.TrainingPlan>): (ids: seq<string>)
    ensures forall x :: x in ids <==> exists k :: 0 <= k < |plans| && plans[k].athleteId == Some(x) && x != ""
  {
    var f := Filter(plans, HasAthlete());
    var ids := seq(|f|, i requires 0 <= i < |f| => f[i].athleteId.GetOr(""));
    assert forall x :: x in ids <==> exists k :: 0 <= k < |plans| && plans[k].athleteId == Some(x) && x != "" by {
      forall x | x in ids
        ensures exists k :: 0 <= k < |plans| && plans[k].athleteId == Some(x) && x != ""
      {
        var j :| 0 <= j < |f| && ids[j] == x;
        var k :| 0 <= k < |plans| && plans[k] == f[j];
        assert plans[k].athleteId == Some(x);
      }
      forall k | 0 <= k < |plans| && Truthy(plans[k].athleteId)
        ensures plans[k].athleteId.value in ids
      {
        var j :| 0 <= j < |f| && f[j] == plans[k];
        assert ids[j] == plans[k].athleteId.value;
      }
    }
    ids
  }

  /** `plans.filter(plan => plan.athleteId === profile.id).map(plan => plan.coachId)`. */
  function PlanCoaches(plans: seq<TP.TrainingPlan>, athleteId: string): (ids: seq<string>)
    ensures forall x :: x in ids <==> exists k :: 0 <= k < |plans| && plans[k].athleteId == Some(athleteId) && plans[k].coachId == x
  {
    var f := Filter(plans, TP.AssignedTo(athleteId));
    var ids := seq(|f|, i requires 0 <= i < |f| => f[i].coachId);
    assert forall x :: x in ids <==> exists k :: 0 <= k < |plans| && plans[k].athleteId == Some(athleteId) && plans[k].coachId == x by {
      forall x | x in ids
        ensures exists k :: 0 <= k < |plans| && plans[k].athleteId == Some(athleteId) && plans[k].coachId == x
      {
        var j :| 0 <= j < |f| && ids[j] == x;
        var k :| 0 <= k < |plans| && plans[k] == f[j];
      }
      forall k | 0 <= k < |plans| && plans[k].athleteId == Some(athleteId)
        ensures plans[k].coachId in ids
      {
        var j :| 0 <= j < |f| && f[j] == plans[k];
        assert ids[j] == plans[k].coachId;
      }
    }
    ids
  }

  /** `chatUsers`: a coach chats with the athletes of their plans, anyone
      else with the coaches of the plans assigned to them; each partner
      once, in the order of their first plan. */
  function ChatPartners(profile: User, plans: seq<TP.TrainingPlan>): (r: seq<string>)
    ensures Distinct(r)
    ensures profile.role == "coach" ==>
      IsSubsequence(r, PlanAthletes(plans))
      && forall x :: x in r <==> exists k :: 0 <= k < |plans| && plans[k].athleteId == Some(x) && x != ""
    ensures profile.role != "coach" ==>
      IsSubsequence(r, PlanCoaches(plans, profile.id))
      && forall x :: x in r <==> exists k :: 0 <= k < |plans| && plans[k].athleteId == Some(profile.id) && plans[k].coachId == x
    ensures var ids := if profile.role == "coach" then PlanAthletes(plans) else PlanCoaches(plans, profile.id);
      r == Dedup(ids) && forall i, j :: 0 <= i < j < |r| ==> IndexOf(ids, r[i]) < IndexOf(ids, r[j])
  {
    var ids := if profile.role == "coach" then PlanAthletes(plans) else PlanCoaches(plans, profile.id);
    DedupMembers(ids);
    DedupIsSubsequence(ids);
    DedupOrder(ids);
    Dedup(ids)
  }

  /** On the page the plans are those `useTrainingPlans` shows: a coach
      chats with the athletes assigned to the plans they coach, and anyone
      else with the coaches of the plans assigned to them. */
  lemma PartnersOfVisiblePlans(profile: User, all: seq<TP.TrainingPlan>, x: string)
    ensures var r := ChatPartners(profile, PlanVisibility.VisibleTrainingPlans(Some(profile), all));
      profile.role == "coach" ==>
        (x in r <==> exists k :: 0 <= k < |all| && all[k].coachId == profile.id && all[k].athleteId == Some(x) && x != "")
    ensures var r := ChatPartners(profile, PlanVisibility.VisibleTrainingPlans(Some(profile), all));
      profile.role != "coach" ==>
        (x in r <==> exists k :: 0 <= k < |all| && all[k].athleteId == Some(profile.id) && all[k].coachId == x)
  {
    if profile.role == "coach" {
      CoachPartners(profile, all, x);
    } else {
      AthletePartners(profile, all, x);
    }
  }

  lemma CoachPartners(profile: User, all: seq<TP.TrainingPlan>, x: string)
    requires profile.role == "coach"
    ensures x in ChatPartners(profile, PlanVisibility.VisibleTrainingPlans(Some(profile), all)) <==>
      exists k :: 0 <= k < |all| && all[k].coachId == profile.id && all[k].athleteId == Some(x) && x != ""
  {
    var v := PlanVisibility.VisibleTrainingPlans(Some(profile), all);
    assert v == Filter(all, TP.CoachedBy(profile.id));
    if x in ChatPartners(profile, v) {
      var j :| 0 <= j < |v| && v[j].athleteId == Some(x) && x != "";
      var k :| 0 <= k < |all| && all[k] == v[j];
    }
  }

  lemma AthletePartners(profile: User, all: seq<TP.TrainingPlan>, x: string)
    requires profile.role != "coach"
    ensures x in ChatPartners(profile, PlanVisibility.VisibleTrainingPlans(Some(profile), all)) <==>
      exists k :: 0 <= k < |all| && all[k].athleteId == Some(profile.id) && all[k].coachId == x
  {
    var v := PlanVisibility.VisibleTrainingPlans(Some(profile), all);
    assert v == Filter(all, TP.AssignedTo(profile.id));
    if x in ChatPartners(profile, v) {
      var j :| 0 <= j < |v| && v[j].athleteId == Some(profile.id) && v[j].coachId == x;
      var k :| 0 <= k < |all| && all[k] == v[j];
    }
  }

  /** The effect on `selectedUserId`: with a profile and a truthy selection,
      that partner's messages are marked read. */
  function MarkOnSelect(selectedUserId: Option<string>, profile: Option<User>): (sender: Option<string>)
    ensures sender.Some? <==> Truthy(selectedUserId) && profile.Some?
    ensures sender.Some? ==> sender == selectedUserId
  {
    if Truthy(selectedUserId) && profile.Some? then selectedUserId else None
  }

  /** What the page's `onSendMessage` does with the composer's text: insert a
      message from the profile to the selected partner, then refetch the
      profile's messages. */
  datatype SendRequest = SendRequest(insert: Messages.MessageInsert, refetchFor: string)

  function SendFromPage(profile: User, selectedUserId: string, content: string): (q: SendRequest)
    ensures q.insert == Messages.SendPayload(profile.id, selectedUserId, content)
    ensures q.refetchFor == profile.id
  {
    SendRequest(Messages.SendPayload(profile.id, selectedUserId, content), profile.id)
  }

  /** The page's one piece of state: the selected partner. */
  class ChatPage {
    var selectedUserId: Option<string>

    constructor ()
      ensures selectedUserId.None?
    {
      selectedUserId := None;
    }

    /** Clicking a partner in the list. The effect runs only when the
        selection changes, so clicking the partner already selected marks
        nothing again. */
    method SelectUser(userId: string, profile: Option<User>) returns (markRead: Option<string>)
      modifies this
      ensures selectedUserId == Some(userId)
      ensures markRead == if old(selectedUserId) == Some(userId) then None else MarkOnSelect(Some(userId), profile)
    {
      var changed := selectedUserId != Some(userId);
      selectedUserId := Some(userId);
      markRead := if changed then MarkOnSelect(selectedUserId, profile) else None;
    }
  }

  // ---------------------------------------------------------------------
  // The conversation pane
  // ---------------------------------------------------------------------

  predicate Between(m: Messages.Message, a: string, b: string)
  {
    (m.senderId == a && m.receiverId == b) || (m.senderId == b && m.receiverId == a)
  }

  function InConversation(a: string, b: string): Messages.Message -> bool
  {
    (m: Messages.Message) => Between(m, a, b)
  }

  /** `conversation`: the messages either user sent the other, in the
      store's order. */
  function Conversation(ms: seq<Messages.Message>, currentUserId: string, otherUserId: string)
    : (r: seq<Messages.Message>)
    ensures IsSubsequence(r, ms)
    ensures forall k :: 0 <= k < |r| ==> Between(r[k], currentUserId, otherUserId)
    ensures forall k :: 0 <= k < |ms| && Between(ms[k], currentUserId, otherUserId) ==> ms[k] in r
  {
    FilterIsSubsequence(ms, InConversation(currentUserId, otherUserId));
    Filter(ms, InConversation(currentUserId, otherUserId))
  }

  /** Both users see the same conversation, and marking messages read does
      not change which messages it holds. */
  lemma ConversationSymmetric(ms: seq<Messages.Message>, a: string, b: string, sender: string)
    ensures Conversation(ms, a, b) == Conversation(ms, b, a)
    ensures |Conversation(Messages.MarkRead(ms, sender), a, b)| == |Conversation(ms, a, b)|
  {
    FilterCongruent(ms, InConversation(a, b), InConversation(b, a));
    MarkedFilterLength(ms, sender, InConversation(a, b));
  }

  /** A filter that does not look at `read` keeps as many messages after
      marking as before. */
  lemma {:induction false} MarkedFilterLength(ms: seq<Messages.Message>, sender: string, p: Messages.Message -> bool)
    requires forall m: Messages.Message :: p(m.(read := true)) == p(m)
    ensures |Filter(Messages.MarkRead(ms, sender), p)| == |Filter(ms, p)|
  {
    if |ms| > 0 {
      var r := Messages.MarkRead(ms, sender);
      assert r[1..] == Messages.MarkRead(ms[1..], sender);
      assert p(r[0]) == p(ms[0]);
      MarkedFilterLength(ms[1..], sender, p);
    }
  }

  /** A message the page sends, once refetched, shows in the conversation
      with the partner it was sent to. */
  lemma SentMessageShows(profile: User, partner: string, content: string, ms: seq<Messages.Message>, k: nat)
    requires k < |ms|
    requires var q := SendFromPage(profile, partner, content);
      ms[k].senderId == q.insert.senderId && ms[k].receiverId == q.insert.receiverId
    ensures ms[k] in Conversation(ms, profile.id, partner)
  {
  }

  /** Own messages are drawn on the right. */
  datatype Side = Right | Left

  function BubbleSide(m: Messages.Message, currentUserId: string): (s: Side)
    ensures s == Right <==> m.senderId == currentUserId
  {
    if m.senderId == currentUserId then Right else Left
  }

  /** In a conversation, every message on the left came from the other user
      to the current one. */
  lemma LeftBubblesAreReceived(ms: seq<Messages.Message>, currentUserId: string, otherUserId: string)
    ensures var c := Conversation(ms, currentUserId, otherUserId);
      forall k :: 0 <= k < |c| && BubbleSide(c[k], currentUserId) == Left ==>
        c[k].senderId == otherUserId && c[k].receiverId == currentUserId
  {
  }

  /** The text `handleSubmit` sends: nothing while a send is in flight or
      when the input is blank, otherwise the input trimmed. */
  function Outgoing(message: string, sending: bool): (r: Option<string>)
    ensures r.None? <==> sending || Trim(message) == ""
    ensures r.Some? ==> r.value == Trim(message)
  {
    if Trim(message) == "" || sending then None else Some(Trim(message))
  }

  /** The send button is disabled exactly when submitting would send
      nothing. */
  function SendDisabled(message: string, sending: bool): (disabled: bool)
    ensures disabled <==> Outgoing(message, sending).None?
  {
    sending || Trim(message) == ""
  }

  /** What is sent is never blank and has no whitespace at either end, so
      submitting the sent text again would send it unchanged. */
  lemma OutgoingIsTrimmed(message: string)
    ensures Outgoing(message, false).Some? ==>
      var t := Outgoing(message, false).value;
      t != "" && !IsWhitespace(t[0]) && !IsWhitespace(t[|t| - 1]) && Outgoing(t, false) == Some(t)
  {
    TrimIsSlice(message);
    if Trim(message) != "" {
      TrimOfTrimmed(Trim(message), Trim(message));
    }
  }

  /** The composer's state: the input's text and whether a send is in
      flight. */
  class Composer {
    var message: string
    var sending: bool

    constructor ()
      ensures message == "" && !sending
    {
      message := "";
      sending := false;
    }

    method Type(text: string)
      modifies this
      ensures message == text && sending == old(sending)
    {
      message := text;
    }

    /** `handleSubmit`, with `delivered` saying whether `onSendMessage`
        resolved. The input is cleared only after a delivered send; the
        in-flight flag is reset whatever happened, so it ends as it began. */
    method Submit(delivered: bool) returns (sent: Option<string>)
      modifies this
      ensures sent == Outgoing(old(message), old(sending))
      ensures message == if sent.Some? && delivered then "" else old(message)
      ensures sending == old(sending)
    {
      if Trim(message) == "" || sending {
        return None;
      }
      sending := true;
      sent := Some(Trim(message));
      if delivered {
        message := "";
      }
      sending := false;
    }
  }
}
