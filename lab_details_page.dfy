/** The lab-details page the router serves: it keeps the lab's exams in one
    piece of state and replaces that list on every tick and every handler. */
module LabDetailsPage {
  import opened ExamRecords
  import opened Validation
  import opened ExamList
  import StatusResolver

  /** `toggleAutoMode(id)`: every exam carrying `id` has auto mode flipped and
      both timers emptied; nothing else changes. */
  function ToggleAutoModeById(exams: seq<Exam>, id: Option<ExamId>): (r: seq<Exam>)
    ensures |r| == |exams|
    ensures forall i :: 0 <= i < |exams| && exams[i].id != id ==> r[i] == exams[i]
    ensures forall i :: 0 <= i < |exams| && exams[i].id == id ==>
      r[i].autoMode == !exams[i].autoMode && r[i].autoOnTime == Unset && r[i].autoOffTime == Unset &&
      r[i].(autoMode := exams[i].autoMode, autoOnTime := exams[i].autoOnTime,
            autoOffTime := exams[i].autoOffTime) == exams[i]
  {
    MapMatching(exams, id, (e: Exam) => e.(autoMode := !e.autoMode, autoOnTime := Unset, autoOffTime := Unset))
  }

  /** After an auto-mode toggle, the next tick leaves the toggled exam exactly
      as the toggle left it, whatever the time. */
  lemma ToggleAutoModeThenTick(exams: seq<Exam>, id: Option<ExamId>, now: int, i: int)
    requires 0 <= i < |exams| && exams[i].id == id
    ensures StatusResolver.Tick(ToggleAutoModeById(exams, id), now)[i] == ToggleAutoModeById(exams, id)[i]
    ensures StatusResolver.Tick(ToggleAutoModeById(exams, id), now)[i].status == exams[i].status
  {
    var t := ToggleAutoModeById(exams, id);
    assert !StatusResolver.Governed(t[i]);
  }

  /** The fetch as written: records are stored as the service returns them,
      so an exam's id is its own `id` property and its `_id` is not used. */
  function LoadAsWritten(raws: seq<RawExam>): (r: seq<Exam>)
    ensures |r| == |raws|
    ensures forall i :: 0 <= i < |raws| ==> r[i].id == raws[i].ownId
    ensures forall i :: 0 <= i < |raws| ==> r[i] == Normalise(raws[i].(mongoId := None))
  {
    seq(|raws|, i requires 0 <= i < |raws| =>
      Exam(raws[i].ownId, raws[i].name, raws[i].url, raws[i].status,
           raws[i].autoMode, raws[i].autoOnTime, raws[i].autoOffTime))
  }

  /** With records keyed by `_id`, as the service's create response is, every
      exam loaded as written has a missing id, so toggling any one of them
      toggles all of them. */
  lemma AsWrittenToggleHitsAll(raws: seq<RawExam>, j: int)
    requires KeyedByMongoId(raws) && 0 <= j < |raws|
    ensures var loaded := LoadAsWritten(raws);
      forall i :: 0 <= i < |raws| ==>
        ToggleStatusById(loaded, loaded[j].id)[i].status == Toggled(raws[i].status)
  {
  }

  /** Two stopped exams with `_id`s "a" and "b": starting the first one, as
      loaded as written, starts the second one too. */
  lemma AsWrittenToggleWitness(a: RawExam, b: RawExam)
    requires a.mongoId == Some("a") && b.mongoId == Some("b")
    requires a.ownId.None? && b.ownId.None? && a.status == Stopped && b.status == Stopped
    ensures var loaded := LoadAsWritten([a, b]);
      ToggleStatusById(loaded, loaded[0].id)[1].status == Running
  {
    AsWrittenToggleHitsAll([a, b], 0);
  }

  /** With the fetch normalising `_id` to `id`, toggling one exam changes that
      exam and no other. */
  lemma NormalisedToggleHitsOne(raws: seq<RawExam>, j: int)
    requires KeyedByMongoId(raws) && 0 <= j < |raws|
    ensures var loaded := NormaliseAll(raws);
      var r := ToggleStatusById(loaded, loaded[j].id);
      r[j].status == Toggled(raws[j].status) &&
      forall i :: 0 <= i < |raws| && i != j ==> r[i] == loaded[i]
  {
    NormaliseAllKeys(raws);
  }

  /** The page's state: the exams of one lab and the add-exam form. */
  class Page {
    const labId: LabId
    var exams: seq<Exam>
    var newExamName: string
    var newExamUrl: string
    var showAddExamModal: bool
    var addingExam: bool

    constructor (labId: LabId)
      ensures this.labId == labId && exams == []
      ensures newExamName == "" && newExamUrl == "" && !showAddExamModal && !addingExam
    {
      this.labId := labId;
      exams := [];
      newExamName, newExamUrl := "", "";
      showAddExamModal, addingExam := false, false;
    }

    /** A successful fetch of the lab's exams, stored as returned. */
    method Load(raws: seq<RawExam>)
      modifies this`exams
      ensures exams == LoadAsWritten(raws)
    {
      exams := LoadAsWritten(raws);
    }

    /** One tick of the status updater at local time `now`. */
    method Tick(now: int)
      modifies this`exams
      ensures exams == StatusResolver.Tick(old(exams), now)
    {
      exams := StatusResolver.Tick(exams, now);
    }

    /** `addExam`: the request it sends (none for a blank name or URL) and,
        when the service answers with the created record, its appending.
        `created` is that answer; `None` when the request fails. */
    method AddExam(created: Option<RawExam>) returns (request: Option<NewExamRequest>)
      modifies this
      ensures request == NewExamRequestFor(old(newExamName), old(newExamUrl), labId)
      ensures request.None? ==> unchanged(this)
      ensures request.Some? ==> !addingExam
      ensures request.Some? && created.None? ==>
        (exams == old(exams) && newExamName == old(newExamName) &&
         newExamUrl == old(newExamUrl) && showAddExamModal == old(showAddExamModal))
      ensures request.Some? && created.Some? ==>
        (exams == AppendCreated(old(exams), created.value) &&
         newExamName == "" && newExamUrl == "" && !showAddExamModal)
    {
      request := NewExamRequestFor(newExamName, newExamUrl, labId);
      if request.Some? {
        addingExam := true;
        if created.Some? {
          exams := AppendCreated(exams, created.value);
          newExamName, newExamUrl := "", "";
          showAddExamModal := false;
        }
        addingExam := false;
      }
    }

    /** `removeExam`: once the service confirms the deletion (`deleted`),
        every exam carrying `examId` leaves the list. */
    method RemoveExam(examId: Option<ExamId>, deleted: bool)
      modifies this`exams
      ensures exams == if deleted then RemoveById(old(exams), examId) else old(exams)
    {
      if deleted {
        exams := RemoveById(exams, examId);
      }
    }

    /** `toggleStatus`: a local status toggle of the exams carrying `examId`. */
    method ToggleStatus(examId: Option<ExamId>)
      modifies this`exams
      ensures exams == ToggleStatusById(old(exams), examId)
    {
      exams := ToggleStatusById(exams, examId);
    }

    /** `toggleAutoMode`: a local auto-mode toggle that empties both timers. */
    method ToggleAutoMode(examId: Option<ExamId>)
      modifies this`exams
      ensures exams == ToggleAutoModeById(old(exams), examId)
    {
      exams := ToggleAutoModeById(exams, examId);
    }

    /** `updateTimer`: one timer field of the exams carrying `examId`. */
    method UpdateTimer(examId: Option<ExamId>, field: TimerField, value: Stamp)
      modifies this`exams
      ensures exams == UpdateTimerById(old(exams), examId, field, value)
    {
      exams := UpdateTimerById(exams, examId, field, value);
    }
  }
}
