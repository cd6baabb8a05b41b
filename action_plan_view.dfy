/**
 * The action plan screen (components/ActionPlanView.tsx): the list of action
 * items narrowed by a status filter and a case-insensitive search over four
 * of their fields, the per-status tallies, and the status labels.
 */
module ActionPlanView {
  import opened Seqs
  import opened Types
  import opened Text

  /** The status selector: every status, or one. */
  datatype StatusFilter = All | Only(status: ActionStatus)

  /** `matchesStatus`. */
  predicate MatchesStatus(filter: StatusFilter, a: ActionItem)
  {
    filter.All? || a.status == filter.status
  }

  /** `matchesSearch`: the lower-cased term is in one of the four lower-cased fields. */
  predicate MatchesSearch(a: ActionItem, searchTerm: string)
  {
    var term := ToLower(searchTerm);
    || Contains(ToLower(a.area), term)
    || Contains(ToLower(a.suggestedAction), term)
    || Contains(ToLower(a.questionText), term)
    || Contains(ToLower(a.responsable), term)
  }

  function Shown(filter: StatusFilter, searchTerm: string): ActionItem -> bool
  {
    (a: ActionItem) => MatchesStatus(filter, a) && MatchesSearch(a, searchTerm)
  }

  /** `filteredActions`. */
  function FilteredActions(actions: seq<ActionItem>, filter: StatusFilter, searchTerm: string): seq<ActionItem>
  {
    Filter(actions, Shown(filter, searchTerm))
  }

  /**
   * The list shown is the actions that pass both tests, in their order: a
   * subsequence of the actions, holding every action that passes; with one
   * status selected, every item shown has that status.
   */
  lemma FilteredActionsExact(actions: seq<ActionItem>, filter: StatusFilter, searchTerm: string)
    ensures Subsequence(FilteredActions(actions, filter, searchTerm), actions)
    ensures forall i :: 0 <= i < |FilteredActions(actions, filter, searchTerm)| ==>
              MatchesStatus(filter, FilteredActions(actions, filter, searchTerm)[i])
              && MatchesSearch(FilteredActions(actions, filter, searchTerm)[i], searchTerm)
    ensures forall i :: 0 <= i < |actions| && MatchesStatus(filter, actions[i]) && MatchesSearch(actions[i], searchTerm) ==>
              actions[i] in FilteredActions(actions, filter, searchTerm)
    ensures filter.Only? ==> forall i :: 0 <= i < |FilteredActions(actions, filter, searchTerm)| ==>
              FilteredActions(actions, filter, searchTerm)[i].status == filter.status
    ensures forall a :: multiset(FilteredActions(actions, filter, searchTerm))[a] ==
              if MatchesStatus(filter, a) && MatchesSearch(a, searchTerm) then multiset(actions)[a] else 0
  {
    FilterIsSubsequence(actions, Shown(filter, searchTerm));
    FilterMultiset(actions, Shown(filter, searchTerm));
  }

  /** With every status and an empty search, every action is shown. */
  lemma NoFilterShowsAll(actions: seq<ActionItem>)
    ensures FilteredActions(actions, All, "") == actions
  {
    forall i | 0 <= i < |actions| ensures Shown(All, "")(actions[i]) {
      assert ToLower("") == "";
      ContainsEmpty(ToLower(actions[i].area));
    }
    FilterKeepsAll(actions, Shown(All, ""));
  }

  /** An item passes the search exactly when the lower-cased term occurs in one of its lower-cased fields. */
  lemma SearchMeaning(a: ActionItem, searchTerm: string)
    ensures MatchesSearch(a, searchTerm) <==>
              || (exists i: nat :: OccursAt(ToLower(a.area), ToLower(searchTerm), i))
              || (exists i: nat :: OccursAt(ToLower(a.suggestedAction), ToLower(searchTerm), i))
              || (exists i: nat :: OccursAt(ToLower(a.questionText), ToLower(searchTerm), i))
              || (exists i: nat :: OccursAt(ToLower(a.responsable), ToLower(searchTerm), i))
  {
    var term := ToLower(searchTerm);
    ContainsIff(ToLower(a.area), term);
    ContainsIff(ToLower(a.suggestedAction), term);
    ContainsIff(ToLower(a.questionText), term);
    ContainsIff(ToLower(a.responsable), term);
  }

  /** The search ignores case in the term: a term and its lower-case form select the same items. */
  lemma SearchIgnoresTermCase(a: ActionItem, searchTerm: string)
    ensures MatchesSearch(a, searchTerm) == MatchesSearch(a, ToLower(searchTerm))
  {
    ToLowerIdempotent(searchTerm);
  }

  function HasStatus(status: ActionStatus): ActionItem -> bool
  {
    (a: ActionItem) => a.status == status
  }

  /** The tally of one status, over all actions. */
  function StatusCount(actions: seq<ActionItem>, status: ActionStatus): nat
  {
    |Filter(actions, HasStatus(status))|
  }

  /** The three tallies add up to the number of actions. */
  lemma {:induction false} StatusCountsSum(actions: seq<ActionItem>)
    ensures StatusCount(actions, PENDING) + StatusCount(actions, IN_PROGRESS) + StatusCount(actions, CLOSED) == |actions|
  {
    if actions != [] {
      StatusCountsSum(actions[1..]);
    }
  }

  /** `getStatusLabel`. */
  function StatusLabel(status: ActionStatus): string
  {
    match status
    case PENDING => "Pendiente"
    case IN_PROGRESS => "En Proceso"
    case CLOSED => "Cerrado"
  }

  /** Different statuses get different labels. */
  lemma StatusLabelInjective(s: ActionStatus, t: ActionStatus)
    ensures StatusLabel(s) == StatusLabel(t) <==> s == t
  {
    if s != t {
      assert StatusLabel(s)[0] != StatusLabel(t)[0];
    }
  }
}
