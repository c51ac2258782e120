/** The records a lab-details page keeps for the exams of one lab, and the
    shapes of what it sends to and receives from the exam service. */
module ExamRecords {

  datatype Option<+T> = None | Some(value: T)

  /** Exam identifiers arrive as JSON strings. A record field holding an id is an
      `Option<ExamId>`: `None` stands for a missing (`undefined`) id. */
  type ExamId = string

  type LabId = string

  /** The tri-state display status of an exam. */
  datatype Status = Stopped | Running | Ongoing

  /** An auto-mode time field as the page's date comparison sees it:
      an empty field (falsy, so the window rule is skipped), a non-empty text
      that does not parse as a date (an invalid date, which compares false with
      every instant), or a local wall-clock instant in milliseconds. */
  datatype Stamp = Unset | Unparsable | At(ms: int) {
    /** The field is a non-empty string. */
    predicate IsSet() { !Unset? }
  }

  /** The two timer fields an `updateTimer` call may name. */
  datatype TimerField = AutoOnTime | AutoOffTime

  /** One exam as the page holds it. */
  datatype Exam = Exam(
    id: Option<ExamId>,
    name: string,
    url: string,
    status: Status,
    autoMode: bool,
    autoOnTime: Stamp,
    autoOffTime: Stamp)

  /** One exam record as the exam service returns it: `mongoId` is its `_id`
      property and `ownId` its `id` property, either possibly absent. */
  datatype RawExam = RawExam(
    mongoId: Option<ExamId>,
    ownId: Option<ExamId>,
    name: string,
    url: string,
    status: Status,
    autoMode: bool,
    autoOnTime: Stamp,
    autoOffTime: Stamp)

  /** An object spread over an exam record: a server response to an update, or
      an update request body. `None` means the property is absent. */
  datatype Patch = Patch(
    id: Option<ExamId>,
    name: Option<string>,
    url: Option<string>,
    status: Option<Status>,
    autoMode: Option<bool>,
    autoOnTime: Option<Stamp>,
    autoOffTime: Option<Stamp>)

  const EmptyPatch: Patch := Patch(None, None, None, None, None, None, None)

  /** The body of the request that creates an exam. */
  datatype NewExamRequest = NewExamRequest(
    name: string,
    url: string,
    status: Status,
    autoMode: bool,
    autoOnTime: Stamp,
    autoOffTime: Stamp,
    labId: LabId)

  /** Milliseconds in a minute and in an hour. */
  const Minute: int := 60 * 1000
  const Hour: int := 60 * Minute

  /** No two records carry the same defined id. */
  predicate UniqueIds(exams: seq<Exam>) {
    forall i, j :: 0 <= i < j < |exams| && exams[i].id.Some? ==> exams[i].id != exams[j].id
  }
}
