/** The passenger list (components/UserManagement.tsx): the search filter, the
    active/blocked tallies and the per-card actions. */
module UserManagement {
  import opened Text
  import opened Seqs

  datatype User = User(
    id: string,
    email: string,
    firstName: string,
    lastName: string,
    phone: string,
    isBlocked: bool,
    totalRides: int)

  /** The name and e-mail part of the search: the lower-cased query occurs in the
      lower-cased first name, last name or e-mail. */
  predicate NameOrEmailMatches(u: User, query: string) {
    var q := Lower(query);
    Contains(Lower(u.firstName), q) || Contains(Lower(u.lastName), q) || Contains(Lower(u.email), q)
  }

  /** The phone part of the search: the query as typed occurs in the phone number. */
  predicate PhoneMatches(u: User, query: string) {
    Contains(u.phone, query)
  }

  predicate Matches(u: User, query: string) {
    NameOrEmailMatches(u, query) || PhoneMatches(u, query)
  }

  /** The search effect: the users matching the query, in list order. */
  function FilterUsers(users: seq<User>, query: string): (shown: seq<User>)
    ensures IsSubsequence(shown, users)
    ensures forall u | u in shown :: u in users && Matches(u, query)
    ensures forall u | u in users && Matches(u, query) :: u in shown
    ensures forall u :: multiset(shown)[u] == (if Matches(u, query) then multiset(users)[u] else 0)
  {
    FilterIsSubsequence(users, (u: User) => Matches(u, query));
    FilterCounts(users, (u: User) => Matches(u, query));
    Filter(users, (u: User) => Matches(u, query))
  }

  /** The empty query (the initial state) shows every user. */
  lemma EmptyQueryShowsAll(users: seq<User>)
    ensures FilterUsers(users, "") == users
  {
    forall u | u in users
      ensures Matches(u, "")
    {
      assert Lower("") == "";
      ContainsEmpty(Lower(u.firstName));
    }
    FilterAll(users, (u: User) => Matches(u, ""));
  }

  /** Typing more never brings a user back: if `shorter` occurs in `longer`, every user
      matching `longer` matches `shorter`. */
  lemma LongerQueryMatchesLess(u: User, shorter: string, longer: string)
    requires Contains(longer, shorter)
    ensures Matches(u, longer) ==> Matches(u, shorter)
  {
    LowerKeepsContains(longer, shorter);
    var ql, qs := Lower(longer), Lower(shorter);
    if Contains(Lower(u.firstName), ql) {
      ContainsTransitive(Lower(u.firstName), ql, qs);
    }
    if Contains(Lower(u.lastName), ql) {
      ContainsTransitive(Lower(u.lastName), ql, qs);
    }
    if Contains(Lower(u.email), ql) {
      ContainsTransitive(Lower(u.email), ql, qs);
    }
    if Contains(u.phone, longer) {
      ContainsTransitive(u.phone, longer, shorter);
    }
  }

  /** Refining the query keeps a subsequence of the previous result. */
  lemma LongerQueryNarrows(users: seq<User>, shorter: string, longer: string)
    requires Contains(longer, shorter)
    ensures IsSubsequence(FilterUsers(users, longer), FilterUsers(users, shorter))
  {
    forall u | u in users && Matches(u, longer)
      ensures Matches(u, shorter)
    {
      LongerQueryMatchesLess(u, shorter, longer);
    }
    FilterMonotone(users, (u: User) => Matches(u, longer), (u: User) => Matches(u, shorter));
  }

  /** Name and e-mail matching ignores the query's letter case. */
  lemma NameMatchIgnoresQueryCase(u: User, query: string)
    ensures NameOrEmailMatches(u, Lower(query)) == NameOrEmailMatches(u, query)
  {
    LowerIdempotent(query);
  }

  /** Phone matching does not: a phone holding "ab" matches "ab" but not "AB". */
  lemma PhoneMatchIsCaseSensitive()
    ensures var u := User("1", "", "", "", "ab", false, 0);
            Matches(u, "ab") && !Matches(u, "AB")
  {
    var u := User("1", "", "", "", "ab", false, 0);
    ContainsSelf("ab");
    assert Lower("") == "";
    NotContainsByChar("ab", "AB", 'A');
  }

  function ActiveCount(users: seq<User>): nat {
    |Filter(users, (u: User) => !u.isBlocked)|
  }

  function BlockedCount(users: seq<User>): nat {
    |Filter(users, (u: User) => u.isBlocked)|
  }

  /** The footer's active and blocked counts add up to the total. */
  lemma ActivePlusBlockedIsTotal(users: seq<User>)
    ensures ActiveCount(users) + BlockedCount(users) == |users|
  {
    FilterCount2(users, (u: User) => !u.isBlocked, (u: User) => u.isBlocked);
  }

  datatype UserAction = BlockUser | UnblockUser | DeleteUser

  /** The toggle button on a card: Unblock for a blocked user, Block otherwise. */
  function ToggleAction(u: User): (a: UserAction)
    ensures a == UnblockUser <==> u.isBlocked
    ensures a == BlockUser <==> !u.isBlocked
  {
    if u.isBlocked then UnblockUser else BlockUser
  }

  /** Whether a clicked action reaches the API: blocking and deleting ask for
      confirmation first, unblocking does not. */
  function SendsRequest(a: UserAction, confirmed: bool): (sent: bool)
    ensures a == UnblockUser ==> sent
    ensures a != UnblockUser ==> (sent <==> confirmed)
  {
    match a
    case UnblockUser => true
    case BlockUser => confirmed
    case DeleteUser => confirmed
  }

  /** The card's toggle reaches the API without asking exactly when the user is blocked:
      unblocking never asks, blocking always does. */
  lemma ToggleSkipsConfirmIff(u: User)
    ensures (forall confirmed: bool :: SendsRequest(ToggleAction(u), confirmed)) <==> u.isBlocked
  {
    if !u.isBlocked {
      assert !SendsRequest(ToggleAction(u), false);
    }
  }
}
