/**
 * The settings screen (components/SettingsView.tsx): adding and deleting
 * areas, responsables and questions.  Each handler either hands a new
 * configuration to the update callback (`Some`) or does nothing (`None`):
 * additions do nothing for a blank entry, deletions do nothing unless the
 * user confirms.
 */
module SettingsView {
  import opened Seqs
  import opened Types
  import opened Text

  predicate Blank(s: string)
  {
    forall i :: 0 <= i < |s| ==> IsSpace(s[i])
  }

  /** What an added area or responsable is stored as: trimmed and upper-cased. */
  function Normalised(s: string): string
  {
    ToUpper(Trim(s))
  }

  lemma UpperKeepsNonSpace(c: char)
    requires !IsSpace(c)
    ensures !IsSpace(UpperChar(c))
  {
  }

  /** A normalised entry is non-empty and has no space at either end. */
  lemma NormalisedEnds(s: string)
    requires !Blank(s)
    ensures Normalised(s) != []
    ensures !IsSpace(Normalised(s)[0]) && !IsSpace(Normalised(s)[|Normalised(s)| - 1])
  {
    TrimIsEmptyIff(s);
    TrimmedEnds(s);
    var t := Trim(s);
    var n := ToUpper(t);
    assert |n| == |t| && n[0] == UpperChar(t[0]) && n[|n| - 1] == UpperChar(t[|t| - 1]);
    UpperKeepsNonSpace(t[0]);
    UpperKeepsNonSpace(t[|t| - 1]);
  }

  /** A normalised entry is already upper case, so normalising twice changes nothing more. */
  lemma NormalisedIsUpper(s: string)
    ensures ToUpper(Normalised(s)) == Normalised(s)
  {
    ToUpperIdempotent(Trim(s));
  }

  // ---------------------------------------------------------------- areas

  /** `handleAddArea`. */
  function AddArea(config: AppConfig, newArea: string): (r: Option<AppConfig>)
    ensures r.None? <==> Blank(newArea)
    ensures r.Some? ==> r.value.areas == config.areas + [Normalised(newArea)]
    ensures r.Some? ==> r.value.questions == config.questions && r.value.responsables == config.responsables
  {
    TrimIsEmptyIff(newArea);
    if Trim(newArea) != [] then Some(config.(areas := config.areas + [ToUpper(Trim(newArea))])) else None
  }

  function NotArea(area: string): string -> bool
  {
    (a: string) => a != area
  }

  /** `handleDeleteArea`, with the answer of the confirmation dialog. */
  function DeleteArea(config: AppConfig, area: string, confirmed: bool): (r: Option<AppConfig>)
    ensures r.None? <==> !confirmed
    ensures r.Some? ==> area !in r.value.areas && Subsequence(r.value.areas, config.areas)
    ensures r.Some? ==> forall i :: 0 <= i < |config.areas| && config.areas[i] != area ==> config.areas[i] in r.value.areas
    ensures r.Some? ==> forall a :: a != area ==> multiset(r.value.areas)[a] == multiset(config.areas)[a]
    ensures r.Some? ==> r.value.questions == config.questions && r.value.responsables == config.responsables
  {
    if confirmed then
      FilterIsSubsequence(config.areas, NotArea(area));
      FilterMultiset(config.areas, NotArea(area));
      Some(config.(areas := Filter(config.areas, NotArea(area))))
    else None
  }

  /** Deleting an area just added, that was not there before, gives back the configuration. */
  lemma DeleteAddedArea(config: AppConfig, newArea: string)
    requires !Blank(newArea) && Normalised(newArea) !in config.areas
    ensures DeleteArea(AddArea(config, newArea).value, Normalised(newArea), true) == Some(config)
  {
    var n := Normalised(newArea);
    var added := AddArea(config, newArea).value;
    FilterAppend(config.areas, [n], NotArea(n));
    FilterKeepsAll(config.areas, NotArea(n));
    assert Filter([n], NotArea(n)) == [] by {
      assert [n][1..] == [];
    }
    assert Filter(added.areas, NotArea(n)) == config.areas;
    assert added.(areas := config.areas) == config;
  }

  // --------------------------------------------------------- responsables

  /** `handleAddResponsable`: the new person has no area. */
  function AddResponsable(config: AppConfig, newResponsable: string): (r: Option<AppConfig>)
    ensures r.None? <==> Blank(newResponsable)
    ensures r.Some? ==> r.value.responsables == config.responsables + [Responsable(Normalised(newResponsable), None)]
    ensures r.Some? ==> r.value.questions == config.questions && r.value.areas == config.areas
  {
    TrimIsEmptyIff(newResponsable);
    if Trim(newResponsable) != [] then
      Some(config.(responsables := config.responsables + [Responsable(ToUpper(Trim(newResponsable)), None)]))
    else None
  }

  function NotNamed(name: string): Responsable -> bool
  {
    (p: Responsable) => p.name != name
  }

  /** `handleDeleteResponsable`, with the answer of the confirmation dialog. */
  function DeleteResponsable(config: AppConfig, name: string, confirmed: bool): (r: Option<AppConfig>)
    ensures r.None? <==> !confirmed
    ensures r.Some? ==> Subsequence(r.value.responsables, config.responsables)
    ensures r.Some? ==> forall i :: 0 <= i < |r.value.responsables| ==> r.value.responsables[i].name != name
    ensures r.Some? ==> forall i :: 0 <= i < |config.responsables| && config.responsables[i].name != name ==>
              config.responsables[i] in r.value.responsables
    ensures r.Some? ==> forall p: Responsable :: p.name != name ==>
              multiset(r.value.responsables)[p] == multiset(config.responsables)[p]
    ensures r.Some? ==> r.value.questions == config.questions && r.value.areas == config.areas
  {
    if confirmed then
      FilterIsSubsequence(config.responsables, NotNamed(name));
      FilterMultiset(config.responsables, NotNamed(name));
      Some(config.(responsables := Filter(config.responsables, NotNamed(name))))
    else None
  }

  /** Deleting a person just added, whose name was not in use, gives back the configuration. */
  lemma DeleteAddedResponsable(config: AppConfig, newResponsable: string)
    requires !Blank(newResponsable)
    requires forall i :: 0 <= i < |config.responsables| ==> config.responsables[i].name != Normalised(newResponsable)
    ensures DeleteResponsable(AddResponsable(config, newResponsable).value, Normalised(newResponsable), true) == Some(config)
  {
    var n := Normalised(newResponsable);
    var p := Responsable(n, None);
    var added := AddResponsable(config, newResponsable).value;
    FilterAppend(config.responsables, [p], NotNamed(n));
    FilterKeepsAll(config.responsables, NotNamed(n));
    assert Filter([p], NotNamed(n)) == [] by {
      assert [p][1..] == [];
    }
    assert Filter(added.responsables, NotNamed(n)) == config.responsables;
    assert added.(responsables := config.responsables) == config;
  }

  // ------------------------------------------------------------ questions

  /** `Math.max(...ids)` of a non-empty list of questions. */
  function MaxId(qs: seq<Question>): (m: nat)
    requires |qs| > 0
    ensures forall i :: 0 <= i < |qs| ==> qs[i].id <= m
    ensures exists i :: 0 <= i < |qs| && qs[i].id == m
  {
    if |qs| == 1 then qs[0].id
    else
      var rest := MaxId(qs[1..]);
      assert forall i :: 1 <= i < |qs| ==> qs[i] == qs[1..][i - 1];
      if qs[0].id >= rest then qs[0].id else rest
  }

  /**
   * `nextId`: one more than the largest id, or 1 for no questions.  It is
   * larger than every id in use, and the smallest number that is (given that
   * ids start at 1).
   */
  function NextQuestionId(qs: seq<Question>): (id: nat)
    ensures id >= 1
    ensures forall i :: 0 <= i < |qs| ==> qs[i].id < id
    ensures id == 1 || exists i :: 0 <= i < |qs| && qs[i].id == id - 1
  {
    if |qs| > 0 then MaxId(qs) + 1 else 1
  }

  /** `handleAddQuestion`: the text is trimmed but, unlike areas and names, not upper-cased. */
  function AddQuestion(config: AppConfig, newQuestion: string): (r: Option<AppConfig>)
    ensures r.None? <==> Blank(newQuestion)
    ensures r.Some? ==> r.value.questions == config.questions + [Question(NextQuestionId(config.questions), Trim(newQuestion))]
    ensures r.Some? ==> r.value.areas == config.areas && r.value.responsables == config.responsables
  {
    TrimIsEmptyIff(newQuestion);
    if Trim(newQuestion) != [] then
      Some(config.(questions := config.questions + [Question(NextQuestionId(config.questions), Trim(newQuestion))]))
    else None
  }

  function QuestionId(q: Question): nat { q.id }

  /** Question ids that were distinct stay distinct after an addition. */
  lemma AddQuestionKeepsIdsDistinct(config: AppConfig, newQuestion: string)
    requires DistinctBy(config.questions, QuestionId)
    requires !Blank(newQuestion)
    ensures DistinctBy(AddQuestion(config, newQuestion).value.questions, QuestionId)
  {
    var qs := AddQuestion(config, newQuestion).value.questions;
    forall i, j | 0 <= i < j < |qs| ensures QuestionId(qs[i]) != QuestionId(qs[j]) {
      if j == |config.questions| {
        assert qs[i] == config.questions[i];
      }
    }
  }

  function NotId(id: nat): Question -> bool
  {
    (q: Question) => q.id != id
  }

  /** `handleDeleteQuestion`, with the answer of the confirmation dialog. */
  function DeleteQuestion(config: AppConfig, id: nat, confirmed: bool): (r: Option<AppConfig>)
    ensures r.None? <==> !confirmed
    ensures r.Some? ==> Subsequence(r.value.questions, config.questions)
    ensures r.Some? ==> forall i :: 0 <= i < |r.value.questions| ==> r.value.questions[i].id != id
    ensures r.Some? ==> forall i :: 0 <= i < |config.questions| && config.questions[i].id != id ==>
              config.questions[i] in r.value.questions
    ensures r.Some? ==> forall q: Question :: q.id != id ==> multiset(r.value.questions)[q] == multiset(config.questions)[q]
    ensures r.Some? ==> r.value.areas == config.areas && r.value.responsables == config.responsables
  {
    if confirmed then
      FilterIsSubsequence(config.questions, NotId(id));
      FilterMultiset(config.questions, NotId(id));
      Some(config.(questions := Filter(config.questions, NotId(id))))
    else None
  }

  /** Deleting the question just added gives back the configuration: its id was fresh. */
  lemma DeleteAddedQuestion(config: AppConfig, newQuestion: string)
    requires !Blank(newQuestion)
    ensures DeleteQuestion(AddQuestion(config, newQuestion).value, NextQuestionId(config.questions), true) == Some(config)
  {
    var id := NextQuestionId(config.questions);
    var q := Question(id, Trim(newQuestion));
    var added := AddQuestion(config, newQuestion).value;
    FilterAppend(config.questions, [q], NotId(id));
    FilterKeepsAll(config.questions, NotId(id));
    assert Filter([q], NotId(id)) == [] by {
      assert [q][1..] == [];
    }
    assert Filter(added.questions, NotId(id)) == config.questions;
    assert added.(questions := config.questions) == config;
  }
}
