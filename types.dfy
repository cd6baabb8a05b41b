/**
 * The application's data model.  The `types` file of the application is not
 * part of this model; the entities below are read off their uses in the
 * components.  Calendar dates are day numbers, identifiers are strings, and
 * question identifiers are natural numbers (every identifier the application
 * creates is `max + 1` starting from 1).
 */
module Types {
  import opened Seqs

  datatype Rating = SI | NO | PARCIAL | NA

  datatype ActionStatus = PENDING | IN_PROGRESS | CLOSED

  datatype Question = Question(id: nat, text: string)

  datatype Answer = Answer(questionId: nat, rating: Rating)

  datatype AuditRecord = AuditRecord(
    id: string,
    area: string,
    auditor: string,
    responsable: string,
    date: int,
    answers: seq<Answer>,
    score: int)

  /** `issueType` is always NO or PARCIAL for a generated item. */
  datatype ActionItem = ActionItem(
    id: string,
    auditId: string,
    area: string,
    questionId: nat,
    questionText: string,
    issueType: Rating,
    suggestedAction: string,
    responsable: string,
    dueDate: int,
    status: ActionStatus,
    createdAt: int)

  /** A responsible person; those added in the settings screen carry no area. */
  datatype Responsable = Responsable(name: string, area: Option<string>)

  datatype AppConfig = AppConfig(
    questions: seq<Question>,
    areas: seq<string>,
    responsables: seq<Responsable>)
}
