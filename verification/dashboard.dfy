/**
 The admin loans dashboard's derived views. The backend answers with a
 `Record<string, Loan[]>` from user name to that user's loans; the page
 flattens it into one list, filters it by status, lists the user names,
 filters those by a case-insensitive search term and shows per-user
 count badges.
 */
module Dashboard {

  import opened Options
  import opened Text
  import opened Seqs
  import opened Loans

  /**
   A JavaScript object from user names to loan lists: `keys` is the order
   in which `Object.keys` and `Object.values` enumerate it, `entries` the
   key-to-value association.
   */
  datatype Record = Record(keys: seq<string>, entries: map<string, seq<Loan>>)

  /** Keys are enumerated once each, and exactly the object's keys are enumerated. */
  predicate Valid(r: Record)
  {
    && (forall i, j :: 0 <= i < j < |r.keys| ==> r.keys[i] != r.keys[j])
    && (forall k :: k in r.entries ==> k in r.keys)
    && (forall i :: 0 <= i < |r.keys| ==> r.keys[i] in r.entries)
  }

  type LoansData = r: Record | Valid(r) witness Record([], map[])

  /** `Object.keys(loansData)`. */
  function UserNames(data: LoansData): (r: seq<string>)
    ensures forall i :: 0 <= i < |r| ==> r[i] in data.entries
    ensures forall k :: k in data.entries ==> k in r
  {
    data.keys
  }

  /** `Object.values(loansData)`: each user's loans, in key order. */
  function LoanLists(data: LoansData): (r: seq<seq<Loan>>)
    ensures |r| == |data.keys|
    ensures forall i :: 0 <= i < |r| ==> r[i] == data.entries[data.keys[i]]
  {
    seq(|data.keys|, i requires 0 <= i < |data.keys| => data.entries[data.keys[i]])
  }

  /** `Object.values(loansData).flat()`. */
  function AllLoans(data: LoansData): (r: seq<Loan>)
    ensures |r| == SumLengths(LoanLists(data))
  {
    Flatten(LoanLists(data))
  }

  /** The exact, case-sensitive status test `loan.status === status`. */
  function StatusIs(status: string): Loan -> bool
  {
    (l: Loan) => l.status == status
  }

  /** `allLoans.filter((loan) => loan.status === "active")`. */
  function ActiveLoans(data: LoansData): (r: seq<Loan>)
    ensures |r| <= |AllLoans(data)|
    ensures forall i :: 0 <= i < |r| ==> r[i] in AllLoans(data) && r[i].status == "active"
  {
    Filter(AllLoans(data), StatusIs("active"))
  }

  /** `allLoans.filter((loan) => loan.status === "closed")`. */
  function ClosedLoans(data: LoansData): (r: seq<Loan>)
    ensures |r| <= |AllLoans(data)|
    ensures forall i :: 0 <= i < |r| ==> r[i] in AllLoans(data) && r[i].status == "closed"
  {
    Filter(AllLoans(data), StatusIs("closed"))
  }

  /** `name.toLowerCase().includes(searchTerm.toLowerCase())`. */
  function NameMatches(term: string): string -> bool
  {
    (name: string) => Contains(Lower(name), Lower(term))
  }

  /** `userNames.filter(...)` with the search term. */
  function FilteredUserNames(data: LoansData, term: string): (r: seq<string>)
    ensures |r| <= |data.keys|
    ensures forall i :: 0 <= i < |r| ==> r[i] in data.entries && Contains(Lower(r[i]), Lower(term))
  {
    Filter(UserNames(data), NameMatches(term))
  }

  /** A loan is in the flat list exactly when some user's list holds it, and the lengths add up. */
  lemma AllLoansContents(data: LoansData, l: Loan)
    ensures |AllLoans(data)| == SumLengths(LoanLists(data))
    ensures l in AllLoans(data) <==> exists k :: k in data.entries && l in data.entries[k]
  {
    FlattenMembership(LoanLists(data), l);
    var lists := LoanLists(data);
    if exists k :: k in data.entries && l in data.entries[k] {
      var k :| k in data.entries && l in data.entries[k];
      var i :| 0 <= i < |data.keys| && data.keys[i] == k;
      assert l in lists[i];
    }
  }

  /**
   The active list keeps, in their original order, exactly the loans whose
   status is the string "active", each as often as it occurs.
   */
  lemma ActiveLoansExact(data: LoansData, l: Loan)
    ensures IsSubsequence(ActiveLoans(data), AllLoans(data))
    ensures forall i :: 0 <= i < |ActiveLoans(data)| ==> ActiveLoans(data)[i].status == "active"
    ensures multiset(ActiveLoans(data))[l] == if l.status == "active" then multiset(AllLoans(data))[l] else 0
  {
    FilterIsSubsequence(AllLoans(data), StatusIs("active"));
    FilterMultiplicity(AllLoans(data), StatusIs("active"), l);
  }

  /**
   The closed list keeps, in their original order, exactly the loans whose
   status is the string "closed", each as often as it occurs.
   */
  lemma ClosedLoansExact(data: LoansData, l: Loan)
    ensures IsSubsequence(ClosedLoans(data), AllLoans(data))
    ensures forall i :: 0 <= i < |ClosedLoans(data)| ==> ClosedLoans(data)[i].status == "closed"
    ensures multiset(ClosedLoans(data))[l] == if l.status == "closed" then multiset(AllLoans(data))[l] else 0
  {
    FilterIsSubsequence(AllLoans(data), StatusIs("closed"));
    FilterMultiplicity(AllLoans(data), StatusIs("closed"), l);
  }

  /** The four numbers on the summary cards. */
  datatype Counts = Counts(total: nat, active: nat, closed: nat, users: nat)

  /** Builds the set of names a key list enumerates. */
  function NameSet(names: seq<string>): (r: set<string>)
    ensures forall n :: n in r <==> n in names
  {
    if |names| == 0 then {} else {names[0]} + NameSet(names[1..])
  }

  /** A list without repetitions has as many elements as the set it enumerates. */
  lemma {:induction false} NameSetSize(names: seq<string>)
    requires forall i, j :: 0 <= i < j < |names| ==> names[i] != names[j]
    ensures |NameSet(names)| == |names|
  {
    if |names| > 0 {
      NameSetSize(names[1..]);
      assert names[0] !in NameSet(names[1..]);
    }
  }

  /**
   The summary cards: total, active and closed loans and the number of
   users. Active and closed loans never add up to more than the total, and
   the user count is the number of keys of the record.
   */
  function SummaryCounts(data: LoansData): (c: Counts)
    ensures c.total == SumLengths(LoanLists(data))
    ensures c.active + c.closed <= c.total
    ensures c.users == |data.entries|
  {
    DisjointFiltersBound(AllLoans(data), StatusIs("active"), StatusIs("closed"));
    NameSetSize(data.keys);
    assert NameSet(data.keys) == data.entries.Keys;
    Counts(|AllLoans(data)|, |ActiveLoans(data)|, |ClosedLoans(data)|, |UserNames(data)|)
  }

  /** The three badges on a user's card. */
  datatype Badge = Badge(loans: nat, active: nat, closed: nat)

  /**
   The badges `loansData[userName].length`, and the lengths of that list
   filtered by "active" and by "closed". Only keys of the record are shown.
   */
  function UserBadge(data: LoansData, name: string): (b: Badge)
    requires name in data.entries
    ensures b.loans == |data.entries[name]|
    ensures b.active + b.closed <= b.loans
  {
    var loans := data.entries[name];
    DisjointFiltersBound(loans, StatusIs("active"), StatusIs("closed"));
    Badge(|loans|, |Filter(loans, StatusIs("active"))|, |Filter(loans, StatusIs("closed"))|)
  }

  /** One user's card: the name and its badges. */
  datatype UserCard = UserCard(name: string, badge: Badge)

  /** The cards of the "By User" tab, one per matching user, in key order. */
  function UserCards(data: LoansData, term: string): (cards: seq<UserCard>)
    ensures |cards| == |FilteredUserNames(data, term)|
    ensures forall i :: 0 <= i < |cards| ==>
              && cards[i].name == FilteredUserNames(data, term)[i]
              && cards[i].name in data.entries
              && cards[i].badge == UserBadge(data, cards[i].name)
  {
    var names := FilteredUserNames(data, term);
    seq(|names|, i requires 0 <= i < |names| => UserCard(names[i], UserBadge(data, names[i])))
  }

  /** Per-user status counts over all users sum to the dashboard's count for that status. */
  lemma {:induction false} StatusCountsAddUp(lists: seq<seq<Loan>>, status: string)
    ensures SumLengths(FilterEach(lists, StatusIs(status))) == |Filter(Flatten(lists), StatusIs(status))|
  {
    FilterFlatten(lists, StatusIs(status));
  }

  /**
   The badges agree with the summary cards: summed over all users, the
   loan, active and closed badges give the total, active and closed counts.
   */
  lemma BadgesAgreeWithSummary(data: LoansData)
    ensures var badges := seq(|data.keys|, i requires 0 <= i < |data.keys| => UserBadge(data, data.keys[i]));
            var c := SummaryCounts(data);
            && SumLengths(LoanLists(data)) == c.total
            && SumLengths(FilterEach(LoanLists(data), StatusIs("active"))) == c.active
            && SumLengths(FilterEach(LoanLists(data), StatusIs("closed"))) == c.closed
            && (forall i :: 0 <= i < |badges| ==>
                  badges[i].active == |FilterEach(LoanLists(data), StatusIs("active"))[i]|
                  && badges[i].closed == |FilterEach(LoanLists(data), StatusIs("closed"))[i]|)
  {
    StatusCountsAddUp(LoanLists(data), "active");
    StatusCountsAddUp(LoanLists(data), "closed");
  }

  /**
   The search keeps, in key order, exactly the user names whose lower-cased
   form contains the lower-cased term.
   */
  lemma FilteredUserNamesExact(data: LoansData, term: string)
    ensures IsSubsequence(FilteredUserNames(data, term), UserNames(data))
    ensures forall n :: n in FilteredUserNames(data, term) <==>
              n in data.entries && Contains(Lower(n), Lower(term))
  {
    FilterIsSubsequence(UserNames(data), NameMatches(term));
  }

  /** An empty search term keeps every user name. */
  lemma EmptySearchKeepsAll(data: LoansData)
    ensures FilteredUserNames(data, "") == UserNames(data)
  {
    forall i | 0 <= i < |data.keys|
      ensures NameMatches("")(data.keys[i])
    {
      ContainsEmpty(Lower(data.keys[i]));
    }
    FilterAll(UserNames(data), NameMatches(""));
  }

  /** The search ignores the letter case of the term. */
  lemma SearchIgnoresTermCase(data: LoansData, term: string)
    ensures FilteredUserNames(data, term) == FilteredUserNames(data, Lower(term))
  {
    LowerIdempotent(term);
    FilterCongruent(UserNames(data), NameMatches(term), NameMatches(Lower(term)));
  }

  const NoMatchMessage := "No users match your search."
  const NoDataMessage := "No user loan data available."

  /**
   The placeholder of the "By User" tab: none while some user matches,
   otherwise the no-match text for a non-empty term and the no-data text
   for an empty one.
   */
  function EmptyStateMessage(data: LoansData, term: string): (m: Option<string>)
    ensures m.None? <==> |FilteredUserNames(data, term)| > 0
  {
    if |FilteredUserNames(data, term)| == 0 then
      Some(if term != "" then NoMatchMessage else NoDataMessage)
    else None
  }

  /** The no-data text appears exactly when the term is empty and the record has no users. */
  lemma NoDataMessageIff(data: LoansData, term: string)
    ensures EmptyStateMessage(data, term) == Some(NoDataMessage) <==> term == "" && |data.keys| == 0
  {
    assert |NoMatchMessage| != |NoDataMessage|;
    if term == "" {
      EmptySearchKeepsAll(data);
    }
  }

  /** The no-match text appears exactly when a non-empty term matches no user. */
  lemma NoMatchMessageIff(data: LoansData, term: string)
    ensures EmptyStateMessage(data, term) == Some(NoMatchMessage) <==>
            term != "" && forall n :: n in data.entries ==> !Contains(Lower(n), Lower(term))
  {
    assert |NoMatchMessage| != |NoDataMessage|;
    FilteredUserNamesExact(data, term);
    var names := FilteredUserNames(data, term);
    if |names| > 0 {
      assert names[0] in names;
    }
  }
}
