/**
 * The audit form (components/AuditForm.tsx): the answers the user has given,
 * the live score, the default responsible person for an area, and what a
 * submission produces: the audit record and, for a new audit only, one
 * corrective action per failing or partial answer.
 */
module AuditForm {
  import opened Seqs
  import opened Types
  import opened Text
  import Scoring

  // --------------------------------------------------------------- answers

  predicate AscendingIds(s: seq<Answer>)
  {
    forall i, j :: 0 <= i < j < |s| ==> s[i].questionId < s[j].questionId
  }

  /**
   * The form's answers object, keyed by question id.  JavaScript enumerates
   * the integer keys of an object in ascending order, so `Object.values` and
   * `Object.entries` see the entries sorted by question id, one per id.
   */
  type AnswerMap = s: seq<Answer> | AscendingIds(s) witness []

  /** `answers[qid]`. */
  function Lookup(m: seq<Answer>, qid: nat): Option<Rating>
  {
    if m == [] then None
    else if m[0].questionId == qid then Some(m[0].rating)
    else Lookup(m[1..], qid)
  }

  /** `handleRatingChange`: `{ ...prev, [questionId]: rating }`. */
  function SetRating(m: AnswerMap, qid: nat, rating: Rating): (r: AnswerMap)
    ensures Lookup(r, qid) == Some(rating)
    ensures forall q :: q != qid ==> Lookup(r, q) == Lookup(m, q)
    ensures |r| == if Lookup(m, qid).None? then |m| + 1 else |m|
    ensures r[0].questionId == if m == [] || qid < m[0].questionId then qid else m[0].questionId
  {
    if m == [] then [Answer(qid, rating)]
    else if qid < m[0].questionId then
      LookupBelowFirst(m, qid);
      ConsAscending(Answer(qid, rating), m);
      [Answer(qid, rating)] + m
    else if qid == m[0].questionId then
      var tail: AnswerMap := m[1..];
      LookupBelowFirst(tail, qid);
      ConsAscending(Answer(qid, rating), tail);
      [Answer(qid, rating)] + tail
    else
      var tail: AnswerMap := m[1..];
      var t := SetRating(tail, qid, rating);
      ConsAscending(m[0], t);
      [m[0]] + t
  }

  /** An answer with an id below the first key can be put in front. */
  lemma ConsAscending(a: Answer, t: AnswerMap)
    requires t == [] || a.questionId < t[0].questionId
    ensures AscendingIds([a] + t) && ([a] + t)[1..] == t
  {
    var s := [a] + t;
    forall i, j | 0 <= i < j < |s| ensures s[i].questionId < s[j].questionId {
      if i > 0 {
        assert s[i] == t[i - 1] && s[j] == t[j - 1];
      } else if j > 1 {
        assert s[j] == t[j - 1];
        assert t[0].questionId < t[j - 1].questionId;
      }
    }
  }

  /** An id below the first key is not a key. */
  lemma {:induction false} LookupBelowFirst(m: AnswerMap, qid: nat)
    requires m == [] || qid <= m[0].questionId
    ensures m != [] && qid == m[0].questionId ==> Lookup(m, qid) == Some(m[0].rating)
    ensures m == [] || qid < m[0].questionId ==> Lookup(m, qid) == None
  {
    if m != [] && qid < m[0].questionId && |m| > 1 {
      LookupBelowFirst(m[1..], qid);
    }
  }

  /** A new key goes in at one place `k`; every other entry stays where it was. */
  lemma {:induction false} SetRatingInserts(m: AnswerMap, qid: nat, rating: Rating) returns (k: nat)
    requires Lookup(m, qid).None?
    ensures k <= |m| && SetRating(m, qid, rating) == m[..k] + [Answer(qid, rating)] + m[k..]
  {
    if m == [] || qid < m[0].questionId {
      k := 0;
    } else {
      var tail: AnswerMap := m[1..];
      assert qid != m[0].questionId;
      assert SetRating(m, qid, rating) == [m[0]] + SetRating(tail, qid, rating);
      var j := SetRatingInserts(tail, qid, rating);
      k := j + 1;
      assert m[..k] == [m[0]] + tail[..j];
      assert m[k..] == tail[j..];
    }
  }

  /** `Object.values(answers)`. */
  function ValuesOf(m: seq<Answer>): (v: seq<Rating>)
    ensures |v| == |m|
  {
    seq(|m|, i requires 0 <= i < |m| => m[i].rating)
  }

  lemma ValuesOfAppend(a: seq<Answer>, b: seq<Answer>)
    ensures ValuesOf(a + b) == ValuesOf(a) + ValuesOf(b)
  {
  }

  /** Giving an NA answer to a question not yet answered leaves the score as it was. */
  lemma AddingNAKeepsScore(m: AnswerMap, qid: nat)
    requires Lookup(m, qid).None?
    ensures Scoring.Score(ValuesOf(SetRating(m, qid, NA))) == Scoring.Score(ValuesOf(m))
  {
    var k := SetRatingInserts(m, qid, NA);
    var a, b := ValuesOf(m[..k]), ValuesOf(m[k..]);
    var v := ValuesOf(SetRating(m, qid, NA));
    assert v == a + [NA] + b by {
      ValuesOfAppend(m[..k] + [Answer(qid, NA)], m[k..]);
      ValuesOfAppend(m[..k], [Answer(qid, NA)]);
      assert ValuesOf([Answer(qid, NA)]) == [NA];
    }
    assert ValuesOf(m) == a + b by {
      ValuesOfAppend(m[..k], m[k..]);
      assert m[..k] + m[k..] == m;
    }
    Scoring.ScoreIgnoresNA(a, b);
  }

  // ----------------------------------------------------------------- score

  /** `calculateScore`: the live score of the answers given so far. */
  method CalculateScore(answers: AnswerMap) returns (score: int)
    ensures score == Scoring.Score(ValuesOf(answers))
    ensures 0 <= score <= 100
  {
    var values := ValuesOf(answers);
    var totalHalves: nat := 0;
    var maxPoints: nat := 0;
    var i := 0;
    while i < |values|
      invariant 0 <= i <= |values|
      invariant totalHalves == Scoring.Points(values[..i])
      invariant maxPoints == Scoring.MaxPoints(values[..i])
    {
      assert values[..i + 1][..i] == values[..i];
      if values[i] == SI {
        totalHalves := totalHalves + 2;
        maxPoints := maxPoints + 1;
      } else if values[i] == PARCIAL {
        totalHalves := totalHalves + 1;
        maxPoints := maxPoints + 1;
      } else if values[i] == NO {
        maxPoints := maxPoints + 1;
      }
      // NA adds nothing to either
      i := i + 1;
    }
    assert values[..i] == values;
    score := if maxPoints == 0 then 0 else Scoring.RoundDiv(100 * totalHalves, 2 * maxPoints);
    Scoring.ScoreInRange(values);
  }

  // ------------------------------------------------------- responsable

  function ForArea(areaName: string): Responsable -> bool
  {
    (r: Responsable) => r.area == Some(areaName)
  }

  /**
   * `getResponsableForArea`: the first responsible person mapped to the area,
   * else the first responsible person, else the empty name.
   */
  function ResponsableForArea(rs: seq<Responsable>, areaName: string): (name: string)
    ensures forall i :: 0 <= i < |rs| && rs[i].area == Some(areaName)
                        && (forall j :: 0 <= j < i ==> rs[j].area != Some(areaName))
                        ==> name == rs[i].name
    ensures (forall i :: 0 <= i < |rs| ==> rs[i].area != Some(areaName))
            ==> name == if |rs| > 0 then rs[0].name else ""
  {
    match Find(rs, ForArea(areaName))
    case Some(i) => rs[i].name
    case None => if |rs| > 0 then rs[0].name else ""
  }

  // ---------------------------------------------------------- actions

  function IsQuestion(id: nat): Question -> bool
  {
    (q: Question) => q.id == id
  }

  /** `questions.find(q => q.id === id)`. */
  function FindQuestion(qs: seq<Question>, id: nat): (r: Option<Question>)
    ensures r.Some? ==> r.value.id == id && r.value in qs
    ensures r.Some? ==> exists i :: 0 <= i < |qs| && qs[i] == r.value
                                    && forall j :: 0 <= j < i ==> qs[j].id != id
    ensures r.None? <==> forall i :: 0 <= i < |qs| ==> qs[i].id != id
  {
    match Find(qs, IsQuestion(id))
    case Some(i) => Some(qs[i])
    case None => None
  }

  /** The answers that call for corrective action: NO and PARCIAL. */
  predicate IsFinding(a: Answer)
  {
    a.rating == NO || a.rating == PARCIAL
  }

  /** An answer that generates an action: a finding whose question is configured. */
  function Generates(qs: seq<Question>): Answer -> bool
  {
    (a: Answer) => IsFinding(a) && FindQuestion(qs, a.questionId).Some?
  }

  /** The answers that generate actions, in answer order. */
  function Findings(answers: seq<Answer>, qs: seq<Question>): seq<Answer>
  {
    Filter(answers, Generates(qs))
  }

  function Suggestion(questionText: string): string
  {
    "Corregir hallazgo: \"" + questionText + "\""
  }

  /** The action generated for a finding `a` about question `q`. */
  function ActionFor(a: Answer, q: Question, id: string, auditId: string, area: string,
                     responsable: string, auditDate: int, createdAt: int): ActionItem
  {
    ActionItem(id, auditId, area, q.id, q.text, a.rating, Suggestion(q.text),
               responsable, auditDate + 7, PENDING, createdAt)
  }

  /**
   * `actions` is what a new audit generates: action `k` is made from the
   * `k`-th finding and the `k+1`-th fresh identifier (the 0-th is the audit's).
   */
  ghost predicate DerivedFrom(actions: seq<ActionItem>, answers: seq<Answer>, qs: seq<Question>,
                              auditId: string, area: string, responsable: string,
                              auditDate: int, createdAt: int, uuids: nat -> string)
  {
    var f := Findings(answers, qs);
    && |actions| == |f|
    && forall k :: 0 <= k < |f| ==>
         && FindQuestion(qs, f[k].questionId).Some?
         && actions[k] == ActionFor(f[k], FindQuestion(qs, f[k].questionId).value, uuids(k + 1),
                                    auditId, area, responsable, auditDate, createdAt)
  }

  /** The action generation of `handleSubmit`. */
  method GenerateActions(isNew: bool, answers: seq<Answer>, qs: seq<Question>,
                         auditId: string, area: string, responsable: string,
                         auditDate: int, createdAt: int, uuids: nat -> string)
    returns (newActions: seq<ActionItem>)
    ensures !isNew ==> newActions == []
    ensures isNew ==> DerivedFrom(newActions, answers, qs, auditId, area, responsable,
                                  auditDate, createdAt, uuids)
  {
    newActions := [];
    if !isNew {
      return;
    }
    var i := 0;
    while i < |answers|
      invariant 0 <= i <= |answers|
      invariant DerivedFrom(newActions, answers[..i], qs, auditId, area, responsable,
                            auditDate, createdAt, uuids)
    {
      var ans := answers[i];
      assert answers[..i + 1] == answers[..i] + [ans];
      DerivedStep(newActions, answers[..i], ans, qs, auditId, area, responsable,
                  auditDate, createdAt, uuids);
      if ans.rating == NO || ans.rating == PARCIAL {
        var q := FindQuestion(qs, ans.questionId);
        assert Generates(qs)(ans) <==> q.Some?;
        if q.Some? {
          newActions := newActions + [ActionFor(ans, q.value, uuids(|newActions| + 1), auditId,
                                                area, responsable, auditDate, createdAt)];
        }
      }
      i := i + 1;
    }
    assert answers[..i] == answers;
  }

  /** One more answer extends the derived actions by at most the one it generates. */
  lemma DerivedStep(actions: seq<ActionItem>, answers: seq<Answer>, ans: Answer, qs: seq<Question>,
                    auditId: string, area: string, responsable: string,
                    auditDate: int, createdAt: int, uuids: nat -> string)
    requires DerivedFrom(actions, answers, qs, auditId, area, responsable, auditDate, createdAt, uuids)
    ensures Generates(qs)(ans) ==>
      DerivedFrom(actions + [ActionFor(ans, FindQuestion(qs, ans.questionId).value, uuids(|actions| + 1),
                                       auditId, area, responsable, auditDate, createdAt)],
                  answers + [ans], qs, auditId, area, responsable, auditDate, createdAt, uuids)
    ensures !Generates(qs)(ans) ==>
      DerivedFrom(actions, answers + [ans], qs, auditId, area, responsable, auditDate, createdAt, uuids)
  {
    var f := Findings(answers, qs);
    FilterAppend(answers, [ans], Generates(qs));
    assert [ans][1..] == [];
    if Generates(qs)(ans) {
      var f' := f + [ans];
      assert Findings(answers + [ans], qs) == f';
      var a := actions + [ActionFor(ans, FindQuestion(qs, ans.questionId).value, uuids(|actions| + 1),
                                    auditId, area, responsable, auditDate, createdAt)];
      forall k | 0 <= k < |f'|
        ensures FindQuestion(qs, f'[k].questionId).Some?
        ensures a[k] == ActionFor(f'[k], FindQuestion(qs, f'[k].questionId).value, uuids(k + 1),
                                  auditId, area, responsable, auditDate, createdAt)
      {
        if k < |f| {
          assert f'[k] == f[k] && a[k] == actions[k];
        }
      }
    } else {
      assert Findings(answers + [ans], qs) == f;
    }
  }

  /** What every generated action carries, read off the audit it comes from. */
  lemma DerivedActionFields(actions: seq<ActionItem>, answers: seq<Answer>, qs: seq<Question>,
                            auditId: string, area: string, responsable: string,
                            auditDate: int, createdAt: int, uuids: nat -> string, k: nat)
    requires DerivedFrom(actions, answers, qs, auditId, area, responsable, auditDate, createdAt, uuids)
    requires k < |actions|
    ensures actions[k].status == PENDING
    ensures actions[k].auditId == auditId
    ensures actions[k].area == area && actions[k].responsable == responsable
    ensures actions[k].dueDate == auditDate + 7
    ensures actions[k].issueType == NO || actions[k].issueType == PARCIAL
    ensures Answer(actions[k].questionId, actions[k].issueType) in answers
    ensures FindQuestion(qs, actions[k].questionId) == Some(Question(actions[k].questionId, actions[k].questionText))
    ensures actions[k].suggestedAction == "Corregir hallazgo: \"" + actions[k].questionText + "\""
  {
    var f := Findings(answers, qs);
    assert f[k] in answers && Generates(qs)(f[k]);
  }

  /** SI and NA answers generate nothing. */
  lemma NoFindingsNoActions(answers: seq<Answer>, qs: seq<Question>)
    requires forall i :: 0 <= i < |answers| ==> answers[i].rating == SI || answers[i].rating == NA
    ensures Findings(answers, qs) == []
  {
    FilterDropsAll(answers, Generates(qs));
  }

  /** Every answer is about a configured question. */
  ghost predicate AllConfigured(answers: seq<Answer>, qs: seq<Question>)
  {
    forall i :: 0 <= i < |answers| ==> FindQuestion(qs, answers[i].questionId).Some?
  }

  function FindingFilter(): Answer -> bool
  {
    (a: Answer) => IsFinding(a)
  }

  /** When every answered question is configured, each NO and PARCIAL answer generates an action. */
  lemma FindingsOfConfigured(answers: seq<Answer>, qs: seq<Question>)
    requires AllConfigured(answers, qs)
    ensures Findings(answers, qs) == Filter(answers, FindingFilter())
  {
    assert forall i :: 0 <= i < |answers| ==> (Generates(qs)(answers[i]) <==> FindingFilter()(answers[i]));
    FilterCongruent(answers, Generates(qs), FindingFilter());
  }

  /** Five configured questions answered with one NO and one PARCIAL generate two actions. */
  lemma TwoFindingsExample(qs: seq<Question>)
    requires FindQuestion(qs, 1).Some? && FindQuestion(qs, 2).Some? && FindQuestion(qs, 3).Some?
    requires FindQuestion(qs, 4).Some? && FindQuestion(qs, 5).Some?
    ensures Findings([Answer(1, SI), Answer(2, NO), Answer(3, NA), Answer(4, PARCIAL), Answer(5, SI)], qs)
         == [Answer(2, NO), Answer(4, PARCIAL)]
  {
    var answers := [Answer(1, SI), Answer(2, NO), Answer(3, NA), Answer(4, PARCIAL), Answer(5, SI)];
    forall i | 0 <= i < |answers| ensures FindQuestion(qs, answers[i].questionId).Some? {
      assert answers[i].questionId in {1, 2, 3, 4, 5};
    }
    FindingsOfConfigured(answers, qs);
    ExampleFindings();
  }

  lemma ExampleFindings()
    ensures Filter([Answer(1, SI), Answer(2, NO), Answer(3, NA), Answer(4, PARCIAL), Answer(5, SI)], FindingFilter())
         == [Answer(2, NO), Answer(4, PARCIAL)]
  {
    var answers := [Answer(1, SI), Answer(2, NO), Answer(3, NA), Answer(4, PARCIAL), Answer(5, SI)];
    var g := FindingFilter();
    assert Filter(answers[4..], g) == [] by { assert answers[4..][1..] == []; }
    assert Filter(answers[3..], g) == [answers[3]] by { assert answers[3..][1..] == answers[4..]; }
    assert Filter(answers[2..], g) == [answers[3]] by { assert answers[2..][1..] == answers[3..]; }
    assert Filter(answers[1..], g) == [answers[1], answers[3]] by { assert answers[1..][1..] == answers[2..]; }
  }

  // ------------------------------------------------------------ submit

  /** The form's fields when it is submitted. */
  datatype Form = Form(area: string, auditor: string, responsable: string, auditDate: int,
                       answers: AnswerMap)

  datatype Submission = Submission(record: AuditRecord, newActions: seq<ActionItem>)

  /** The audit a form saves under id `id`: the form's fields, its answers and their score. */
  function RecordOf(form: Form, id: string): AuditRecord
  {
    AuditRecord(id, form.area, form.auditor, form.responsable, form.auditDate, form.answers,
                Scoring.Score(ValuesOf(form.answers)))
  }

  /**
   * `handleSubmit`.  `initialData` is the audit being edited, if any;
   * `confirmIncomplete` is the user's answer to the incomplete-answers prompt;
   * `uuids(n)` is the `n`-th `crypto.randomUUID()` of the call and `now` the
   * creation time.  `None` means nothing is saved.
   */
  method Submit(form: Form, initialData: Option<AuditRecord>, qs: seq<Question>,
                confirmIncomplete: bool, uuids: nat -> string, now: int)
    returns (result: Option<Submission>)
    ensures result.None? <==> Trim(form.auditor) == [] || (|form.answers| != |qs| && !confirmIncomplete)
    ensures result.Some? ==> result.value.record == RecordOf(form, if initialData.Some? then initialData.value.id else uuids(0))
    ensures result.Some? && initialData.Some? ==> result.value.newActions == []
    ensures result.Some? && initialData.None? ==>
              DerivedFrom(result.value.newActions, form.answers, qs, uuids(0), form.area,
                          form.responsable, form.auditDate, now, uuids)
  {
    if Trim(form.auditor) == [] {
      return None;
    }
    var answerList: seq<Answer> := form.answers;
    if |answerList| != |qs| && !confirmIncomplete {
      return None;
    }
    var score := CalculateScore(form.answers);
    var newId := if initialData.Some? then initialData.value.id else uuids(0);
    var record := AuditRecord(newId, form.area, form.auditor, form.responsable, form.auditDate,
                              answerList, score);
    var newActions := GenerateActions(initialData.None?, answerList, qs, newId, form.area,
                                      form.responsable, form.auditDate, now, uuids);
    result := Some(Submission(record, newActions));
  }
}
