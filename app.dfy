/**
 * The application shell (App.tsx): the store holding the audits, the action
 * items, the configuration, the audit being edited and the screen shown, and
 * the handlers that change them.  Browser storage is replaced by the values
 * read from it, passed to `Load`; the confirmation dialog of a deletion is a
 * boolean answer.
 */
module App {
  import opened Seqs
  import opened Types
  import Text
  import Scoring
  import AuditForm

  /** The screens of the application. */
  datatype View = Home | FormPage | DashboardPage | HistoryPage | AiEditorPage | ConsolidatedPage | ActionsPage | SettingsPage

  /** One entry of the fixed area-to-person mapping. */
  datatype AreaMapping = AreaMapping(area: string, responsable: string)

  /** `DEFAULT_CONFIG`: the fixed questions and areas, and one person per mapping entry. */
  function DefaultConfig(questions: seq<Question>, areas: seq<string>, mapping: seq<AreaMapping>): (c: AppConfig)
    ensures c.questions == questions && c.areas == areas
    ensures |c.responsables| == |mapping|
    ensures forall i :: 0 <= i < |mapping| ==>
              c.responsables[i] == Responsable(mapping[i].responsable, Some(mapping[i].area))
  {
    AppConfig(questions, areas,
              seq(|mapping|, i requires 0 <= i < |mapping| => Responsable(mapping[i].responsable, Some(mapping[i].area))))
  }

  // ------------------------------------------------------- question merge

  function IdSet(qs: seq<Question>): set<nat>
  {
    set i | 0 <= i < |qs| :: qs[i].id
  }

  function Absent(ids: set<nat>): Question -> bool
  {
    (q: Question) => q.id !in ids
  }

  /** The saved questions followed by the default questions whose id is not among them. */
  function MergeQuestions(saved: seq<Question>, defaults: seq<Question>): seq<Question>
  {
    saved + Filter(defaults, Absent(IdSet(saved)))
  }

  /**
   * The merge keeps the saved questions, in order, at the front, and appends
   * exactly the default questions whose id is missing, in their order.
   */
  lemma MergeQuestionsMeaning(saved: seq<Question>, defaults: seq<Question>)
    ensures MergeQuestions(saved, defaults)[..|saved|] == saved
    ensures Subsequence(MergeQuestions(saved, defaults)[|saved|..], defaults)
    ensures forall i :: |saved| <= i < |MergeQuestions(saved, defaults)| ==>
              MergeQuestions(saved, defaults)[i] in defaults && MergeQuestions(saved, defaults)[i].id !in IdSet(saved)
    ensures forall i :: 0 <= i < |defaults| && defaults[i].id !in IdSet(saved) ==>
              defaults[i] in MergeQuestions(saved, defaults)[|saved|..]
    ensures forall q :: multiset(MergeQuestions(saved, defaults)[|saved|..])[q] ==
              if q.id !in IdSet(saved) then multiset(defaults)[q] else 0
  {
    var merged := MergeQuestions(saved, defaults);
    var added := Filter(defaults, Absent(IdSet(saved)));
    assert merged[|saved|..] == added;
    FilterIsSubsequence(defaults, Absent(IdSet(saved)));
    FilterMultiset(defaults, Absent(IdSet(saved)));
    forall i | |saved| <= i < |merged| ensures merged[i] in defaults && merged[i].id !in IdSet(saved) {
      assert merged[i] == added[i - |saved|];
    }
  }

  /** After the merge every default question's id is in use. */
  lemma MergeCoversDefaults(saved: seq<Question>, defaults: seq<Question>)
    ensures forall i :: 0 <= i < |defaults| ==> defaults[i].id in IdSet(MergeQuestions(saved, defaults))
  {
    var merged := MergeQuestions(saved, defaults);
    var added := Filter(defaults, Absent(IdSet(saved)));
    forall i | 0 <= i < |defaults| ensures defaults[i].id in IdSet(merged) {
      if defaults[i].id in IdSet(saved) {
        var k :| 0 <= k < |saved| && saved[k].id == defaults[i].id;
        assert merged[k] == saved[k];
      } else {
        assert defaults[i] in added;
        var k :| 0 <= k < |added| && added[k] == defaults[i];
        assert merged[|saved| + k] == defaults[i];
      }
    }
  }

  /** Merging again adds nothing. */
  lemma MergeIdempotent(saved: seq<Question>, defaults: seq<Question>)
    ensures MergeQuestions(MergeQuestions(saved, defaults), defaults) == MergeQuestions(saved, defaults)
  {
    var merged := MergeQuestions(saved, defaults);
    MergeCoversDefaults(saved, defaults);
    FilterDropsAll(defaults, Absent(IdSet(merged)));
    assert merged + [] == merged;
  }

  // ------------------------------------------------------------ the store

  function HasRecordId(id: string): AuditRecord -> bool
  {
    (r: AuditRecord) => r.id == id
  }

  function OtherRecord(id: string): AuditRecord -> bool
  {
    (r: AuditRecord) => r.id != id
  }

  function HasActionId(id: string): ActionItem -> bool
  {
    (a: ActionItem) => a.id == id
  }

  class AppStore {
    var view: View
    var records: seq<AuditRecord>
    var actions: seq<ActionItem>
    var config: AppConfig
    var editingRecord: Option<AuditRecord>

    /** Every stored score is a percentage. */
    ghost predicate ScoresInRange()
      reads this
    {
      forall i :: 0 <= i < |records| ==> 0 <= records[i].score <= 100
    }

    /** The initial state: the home screen, nothing stored, the default configuration. */
    constructor (defaultConfig: AppConfig)
      ensures view == Home && records == [] && actions == [] && config == defaultConfig && editingRecord == None
      ensures ScoresInRange()
    {
      view := Home;
      records := [];
      actions := [];
      config := defaultConfig;
      editingRecord := None;
    }

    /**
     * The load effect.  Each argument is what was read and parsed from
     * storage, or `None` when nothing was stored or it did not parse; a saved
     * configuration gets the missing default questions appended.
     */
    method Load(savedRecords: Option<seq<AuditRecord>>, savedActions: Option<seq<ActionItem>>,
                savedConfig: Option<AppConfig>, defaultQuestions: seq<Question>)
      modifies this
      ensures records == if savedRecords.Some? then savedRecords.value else old(records)
      ensures actions == if savedActions.Some? then savedActions.value else old(actions)
      ensures config == if savedConfig.Some?
                        then savedConfig.value.(questions := MergeQuestions(savedConfig.value.questions, defaultQuestions))
                        else old(config)
      ensures view == old(view) && editingRecord == old(editingRecord)
    {
      if savedRecords.Some? {
        records := savedRecords.value;
      }
      if savedActions.Some? {
        actions := savedActions.value;
      }
      if savedConfig.Some? {
        var parsedConfig := savedConfig.value;
        var existingIds := IdSet(parsedConfig.questions);
        var questionsToAdd := Filter(defaultQuestions, Absent(existingIds));
        if |questionsToAdd| > 0 {
          parsedConfig := parsedConfig.(questions := parsedConfig.questions + questionsToAdd);
        } else {
          assert parsedConfig.questions + questionsToAdd == parsedConfig.questions;
        }
        config := parsedConfig;
      }
    }

    /**
     * `handleSaveAudit`.  While editing, the records with the saved record's
     * id are replaced in place and the actions are left alone; otherwise the
     * record goes first and its new actions go, in order, before the old ones.
     * Either way the form is closed and the dashboard shown.
     */
    method SaveAudit(record: AuditRecord, newActions: seq<ActionItem>)
      modifies this
      ensures old(editingRecord).Some? ==>
                && |records| == |old(records)|
                && (forall i :: 0 <= i < |records| ==>
                      records[i] == if old(records)[i].id == record.id then record else old(records)[i])
                && actions == old(actions)
      ensures old(editingRecord).None? ==> records == [record] + old(records) && actions == newActions + old(actions)
      ensures old(editingRecord).None? ==>
                actions[..|newActions|] == newActions && actions[|newActions|..] == old(actions)
      ensures editingRecord == None && view == DashboardPage && config == old(config)
      ensures old(ScoresInRange()) && 0 <= record.score <= 100 ==> ScoresInRange()
    {
      if editingRecord.Some? {
        ReplaceWhereAt(records, HasRecordId(record.id), record);
        records := ReplaceWhere(records, HasRecordId(record.id), record);
        editingRecord := None;
      } else {
        records := [record] + records;
        actions := newActions + actions;
        assert actions[..|newActions|] == newActions;
        assert actions[|newActions|..] == old(actions);
      }
      view := DashboardPage;
    }

    /** `handleUpdateAction`: the actions with that id are replaced, nothing else moves. */
    method UpdateAction(updatedAction: ActionItem)
      modifies this
      ensures |actions| == |old(actions)|
      ensures forall i :: 0 <= i < |actions| ==>
                actions[i] == if old(actions)[i].id == updatedAction.id then updatedAction else old(actions)[i]
      ensures records == old(records) && config == old(config)
      ensures editingRecord == old(editingRecord) && view == old(view)
    {
      ReplaceWhereAt(actions, HasActionId(updatedAction.id), updatedAction);
      actions := ReplaceWhere(actions, HasActionId(updatedAction.id), updatedAction);
    }

    /** `handleUpdateConfig`. */
    method UpdateConfig(newConfig: AppConfig)
      modifies this
      ensures config == newConfig
      ensures records == old(records) && actions == old(actions)
      ensures editingRecord == old(editingRecord) && view == old(view)
    {
      config := newConfig;
    }

    /** `handleEdit`: open the form on an existing audit. */
    method Edit(record: AuditRecord)
      modifies this
      ensures editingRecord == Some(record) && view == FormPage
      ensures records == old(records) && actions == old(actions) && config == old(config)
    {
      editingRecord := Some(record);
      view := FormPage;
    }

    /**
     * `handleDelete`, with the answer of the confirmation dialog: every
     * record with that id goes, the others stay in order, and the action
     * items are never touched.
     */
    method Delete(id: string, confirmed: bool)
      modifies this
      ensures !confirmed ==> records == old(records)
      ensures confirmed ==> records == Filter(old(records), OtherRecord(id))
      ensures confirmed ==> Subsequence(records, old(records))
      ensures confirmed ==> forall i :: 0 <= i < |records| ==> records[i].id != id
      ensures confirmed ==> forall i :: 0 <= i < |old(records)| && old(records)[i].id != id ==> old(records)[i] in records
      ensures actions == old(actions) && config == old(config)
      ensures editingRecord == old(editingRecord) && view == old(view)
      ensures old(ScoresInRange()) ==> ScoresInRange()
    {
      if confirmed {
        FilterIsSubsequence(records, OtherRecord(id));
        records := Filter(records, OtherRecord(id));
      }
    }

    /** `handleCancelForm`. */
    method CancelForm()
      modifies this
      ensures editingRecord == None && view == Home
      ensures records == old(records) && actions == old(actions) && config == old(config)
    {
      editingRecord := None;
      view := Home;
    }

    /** The "Nueva Auditoría" button: the form, on a new audit. */
    method StartNewAudit()
      modifies this
      ensures editingRecord == None && view == FormPage
      ensures records == old(records) && actions == old(actions) && config == old(config)
    {
      editingRecord := None;
      view := FormPage;
    }

    /** Every other `setView` call: only the screen changes. None of them opens the form;
        that goes through `Edit` or `StartNewAudit`, which also set the record being edited. */
    method Navigate(target: View)
      requires target != FormPage
      modifies this
      ensures view == target
      ensures records == old(records) && actions == old(actions) && config == old(config)
      ensures editingRecord == old(editingRecord)
    {
      view := target;
    }

    /**
     * The form's submission wired to `handleSaveAudit`: the form is given the
     * configured questions and the audit being edited.  Nothing changes when
     * the form refuses; otherwise a new audit goes first with the action
     * items derived from its findings, an edited audit keeps its id and
     * replaces the stored one, and every stored score stays a percentage.
     */
    method SubmitForm(form: AuditForm.Form, confirmIncomplete: bool, uuids: nat -> string, now: int)
      returns (saved: bool)
      modifies this
      ensures saved <==> Text.Trim(form.auditor) != [] && (|form.answers| == |old(config).questions| || confirmIncomplete)
      ensures !saved ==> records == old(records) && actions == old(actions) && editingRecord == old(editingRecord)
                         && view == old(view)
      ensures saved ==> editingRecord == None && view == DashboardPage
      ensures saved && old(editingRecord).Some? ==>
                && |records| == |old(records)|
                && (forall i :: 0 <= i < |records| ==>
                      records[i] == if old(records)[i].id == old(editingRecord).value.id
                                    then AuditForm.RecordOf(form, old(editingRecord).value.id)
                                    else old(records)[i])
                && actions == old(actions)
      ensures saved && old(editingRecord).None? ==>
                && records == [AuditForm.RecordOf(form, uuids(0))] + old(records)
                && |actions| >= |old(actions)|
                && actions[|actions| - |old(actions)|..] == old(actions)
                && AuditForm.DerivedFrom(actions[..|actions| - |old(actions)|], form.answers, old(config).questions,
                                         uuids(0), form.area, form.responsable, form.auditDate, now, uuids)
      ensures config == old(config)
      ensures old(ScoresInRange()) ==> ScoresInRange()
    {
      var result := AuditForm.Submit(form, editingRecord, config.questions, confirmIncomplete, uuids, now);
      if result.None? {
        return false;
      }
      var submission := result.value;
      Scoring.ScoreInRange(AuditForm.ValuesOf(form.answers));
      SaveAudit(submission.record, submission.newActions);
      saved := true;
    }
  }
}
