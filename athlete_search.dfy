/** The athlete picker of the plan forms (components/training/AthleteSearch.tsx):
    which directory users it offers, which one it shows as selected, and how
    its search box and dropdown react. The directory fetch is not modelled:
    the users are an input, and `loading` is a parameter. */
module AthleteSearch {
  import opened Wrappers
  import opened Seqs
  import opened Text
  import opened Catalog

  predicate IsOfferedAthlete(u: User, term: string)
  {
    u.role == "athlete" && Includes(ToLower(u.username), ToLower(term))
  }

  function OfferedFor(term: string): User -> bool
  {
    (u: User) => IsOfferedAthlete(u, term)
  }

  /** `athletes`: the users with role 'athlete' whose username contains the
      term, both lower-cased, in directory order. */
  function OfferedAthletes(users: seq<User>, term: string): (r: seq<User>)
    ensures IsSubsequence(r, users)
    ensures forall k :: 0 <= k < |r| ==> r[k].role == "athlete" && Includes(ToLower(r[k].username), ToLower(term))
    ensures forall k :: (0 <= k < |users| && users[k].role == "athlete"
                         && Includes(ToLower(users[k].username), ToLower(term))) ==> users[k] in r
  {
    FilterIsSubsequence(users, OfferedFor(term));
    Filter(users, OfferedFor(term))
  }

  /** A coach is never offered, whatever the search; with an empty search
      every athlete is. */
  lemma OnlyAthletesOffered(users: seq<User>, term: string, u: User)
    requires u in users
    ensures u.role == "coach" ==> u !in OfferedAthletes(users, term)
    ensures u.role == "athlete" ==> u in OfferedAthletes(users, "")
  {
    var r := OfferedAthletes(users, term);
    if u in r {
      var k :| 0 <= k < |r| && r[k] == u;
    }
    IncludesEmpty(ToLower(u.username));
  }

  function HasId(value: string): User -> bool
  {
    (u: User) => u.id == value
  }

  /** `selectedAthlete`: the first user with the given id, whatever their
      role; none when no user has it. */
  function SelectedAthlete(users: seq<User>, value: string): (r: Option<User>)
    ensures r.None? <==> forall k :: 0 <= k < |users| ==> users[k].id != value
    ensures r.Some? ==> exists i :: (0 <= i < |users| && users[i] == r.value && r.value.id == value
                                     && forall k :: 0 <= k < i ==> users[k].id != value)
  {
    Find(users, HasId(value))
  }

  /** The lookup does not check the role: a coach's id shows the coach. */
  lemma SelectedIgnoresRole(coach: User, rest: seq<User>)
    ensures SelectedAthlete([coach] + rest, coach.id) == Some(coach)
  {
    FindCons([coach] + rest, HasId(coach.id));
  }

  /** The input's placeholder: the selected user's name, or the prompt. */
  function Placeholder(users: seq<User>, value: string): (s: string)
    ensures SelectedAthlete(users, value).Some? ==> s == SelectedAthlete(users, value).value.username
    ensures SelectedAthlete(users, value).None? ==> s == "Search athletes..."
  {
    match SelectedAthlete(users, value)
    case None => "Search athletes..."
    case Some(u) => u.username
  }

  /** What the open dropdown shows. */
  datatype Dropdown = Closed | Spinner | Offers(athletes: seq<User>) | NoAthletesFound

  function DropdownView(isOpen: bool, loading: bool, users: seq<User>, term: string): (d: Dropdown)
    ensures !isOpen <==> d.Closed?
    ensures d.Spinner? <==> isOpen && loading
    ensures d.Offers? ==> d.athletes == OfferedAthletes(users, term) && |d.athletes| > 0
    ensures d.NoAthletesFound? <==> isOpen && !loading && OfferedAthletes(users, term) == []
  {
    if !isOpen then Closed
    else if loading then Spinner
    else if |OfferedAthletes(users, term)| > 0 then Offers(OfferedAthletes(users, term))
    else NoAthletesFound
  }

  /** The picker's own state: the search box and whether the list is open. */
  class AthletePicker {
    var searchTerm: string
    var isOpen: bool

    constructor ()
      ensures searchTerm == "" && !isOpen
    {
      searchTerm := "";
      isOpen := false;
    }

    /** Typing: the term follows the input and the list opens. */
    method Type(text: string)
      modifies this
      ensures searchTerm == text && isOpen
    {
      searchTerm := text;
      isOpen := true;
    }

    method Focus()
      modifies this
      ensures isOpen && searchTerm == old(searchTerm)
    {
      isOpen := true;
    }

    /** A mouse-down outside the picker closes the list. */
    method ClickOutside()
      modifies this
      ensures !isOpen && searchTerm == old(searchTerm)
    {
      isOpen := false;
    }

    /** Clicking an offered athlete: report their id, clear the search and
      close the list. */
    method Pick(athlete: User) returns (reported: string)
      modifies this
      ensures reported == athlete.id
      ensures searchTerm == "" && !isOpen
    {
      reported := athlete.id;
      searchTerm := "";
      isOpen := false;
    }
  }

  /** After a pick the placeholder names the athlete picked, provided no
      earlier directory entry carries the same id. */
  lemma PickShowsAthlete(users: seq<User>, i: nat)
    requires i < |users|
    requires forall k :: 0 <= k < i ==> users[k].id != users[i].id
    ensures Placeholder(users, users[i].id) == users[i].username
  {
    var r := SelectedAthlete(users, users[i].id);
    var j :| 0 <= j < |users| && users[j] == r.value && r.value.id == users[i].id
      && forall k :: 0 <= k < j ==> users[k].id != users[i].id;
    assert j == i;
  }
}
