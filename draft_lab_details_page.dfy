/** The fuller draft of the lab-details page: the same exam list, edited in
    place, with every change confirmed by the exam service before the list is
    updated, and a one-click auto start. */
module DraftLabDetailsPage {
  import opened ExamRecords
  import opened Validation
  import opened ExamList
  import StatusResolver

  /** Which exam's name and URL are being edited, if any. */
  datatype Editing = NotEditing | EditingExam(id: Option<ExamId>)

  /** The body of the request `toggleStatus` sends. */
  function StatusRequest(s: Status): (p: Patch)
    ensures p.status == Some(s) && p.(status := None) == EmptyPatch
  {
    EmptyPatch.(status := Some(s))
  }

  /** The body of the request `toggleAutoMode` sends: the flipped flag, the
      exam's own times when enabling, and empty times when disabling. */
  function AutoModeRequest(e: Exam): (p: Patch)
    ensures p.autoMode == Some(!e.autoMode)
    ensures e.autoMode ==> p.autoOnTime == Some(Unset) && p.autoOffTime == Some(Unset)
    ensures !e.autoMode ==> p.autoOnTime == Some(e.autoOnTime) && p.autoOffTime == Some(e.autoOffTime)
    ensures p.id.None? && p.name.None? && p.url.None? && p.status.None?
  {
    var enable := !e.autoMode;
    EmptyPatch.(autoMode := Some(enable),
                autoOnTime := Some(if enable then e.autoOnTime else Unset),
                autoOffTime := Some(if enable then e.autoOffTime else Unset))
  }

  /** The body of the request `saveAutoMode` sends: auto mode on, with the
      times as the exam holds them. */
  function SaveAutoModeRequest(e: Exam): (p: Patch)
    ensures p.autoMode == Some(true)
    ensures p.autoOnTime == Some(e.autoOnTime) && p.autoOffTime == Some(e.autoOffTime)
    ensures p.id.None? && p.name.None? && p.url.None? && p.status.None?
  {
    EmptyPatch.(autoMode := Some(true), autoOnTime := Some(e.autoOnTime),
                autoOffTime := Some(e.autoOffTime))
  }

  // ----- the auto-start window -----

  /** An instant cut down to its minute, as an ISO text sliced after the
      minutes is. */
  function MinuteFloor(t: int): (r: int)
    ensures r <= t < r + Minute
    ensures r % Minute == 0
  {
    (t / Minute) * Minute
  }

  /** A whole number of minutes added before the cut passes through it. */
  lemma {:induction false} MinuteFloorShift(t: int, m: int)
    requires m % Minute == 0
    ensures MinuteFloor(t + m) == MinuteFloor(t) + m
  {
    var q := m / Minute;
    assert m == q * Minute;
    assert t + m == (t / Minute + q) * Minute + t % Minute;
  }

  /** The window `enableAutoStart` sets, read in the local time the time
      fields are parsed in: from the current minute to one hour later. */
  function AutoStartWindow(now: int): (w: (Stamp, Stamp))
    ensures w.0.At? && w.1.At?
    ensures w.0.ms == MinuteFloor(now)
    ensures w.0.ms <= now <= w.1.ms
    ensures w.1.ms == w.0.ms + Hour
  {
    MinuteFloorShift(now, Hour);
    (At(MinuteFloor(now)), At(MinuteFloor(now + Hour)))
  }

  /** The window as written: the UTC wall clock (local time minus the zone's
      offset `utcOffset`, in milliseconds east of UTC) is written into fields
      that are parsed as local time. */
  function AutoStartWindowAsWritten(now: int, utcOffset: int): (w: (Stamp, Stamp))
    ensures w.0.At? && w.1.At? && w.0.ms == MinuteFloor(now - utcOffset)
    ensures w.1.ms == w.0.ms + Hour
  {
    MinuteFloorShift(now - utcOffset, Hour);
    (At(MinuteFloor(now - utcOffset)), At(MinuteFloor(now - utcOffset + Hour)))
  }

  /** As written, in any zone west of UTC or more than an hour east of it, the
      window just set does not hold the current time. */
  lemma AsWrittenAutoStartMissesNow(now: int, utcOffset: int)
    requires utcOffset <= -Minute || utcOffset > Hour
    ensures var w := AutoStartWindowAsWritten(now, utcOffset);
      !(w.0.ms <= now <= w.1.ms)
  {
    var w := AutoStartWindowAsWritten(now, utcOffset);
    if utcOffset <= -Minute {
      assert w.0.ms > now - utcOffset - Minute;
    } else {
      assert w.1.ms <= now - utcOffset + Hour;
    }
  }

  /** As written, in any zone an hour or more east of UTC, the window just set
      ends no later than the minute it was set in, so every later tick misses
      it. */
  lemma AsWrittenAutoStartMissesLater(now: int, later: int, utcOffset: int)
    requires utcOffset >= Hour && later > now
    ensures var w := AutoStartWindowAsWritten(now, utcOffset);
      !(w.0.ms <= later <= w.1.ms)
  {
    var w := AutoStartWindowAsWritten(now, utcOffset);
    assert w.1.ms <= now - utcOffset + Hour;
  }

  /** At UTC+05:30 an exam started automatically does not become `Ongoing` on
      the next tick. */
  lemma AsWrittenAutoStartWitness(e: Exam, now: int)
    requires e.status == Stopped
    ensures var w := AutoStartWindowAsWritten(now, 330 * Minute);
      StatusResolver.Tick([e.(autoMode := true, autoOnTime := w.0, autoOffTime := w.1)], now)[0].status == Stopped
  {
    AsWrittenAutoStartMissesNow(now, 330 * Minute);
  }

  /** `enableAutoStart(id)` at local time `now`: auto mode on with a window
      from now to one hour later for every exam carrying `id`. */
  function EnableAutoStartById(exams: seq<Exam>, id: Option<ExamId>, now: int): (r: seq<Exam>)
    ensures |r| == |exams|
    ensures forall i :: 0 <= i < |exams| && exams[i].id != id ==> r[i] == exams[i]
    ensures forall i :: 0 <= i < |exams| && exams[i].id == id ==>
      r[i] == exams[i].(autoMode := true, autoOnTime := AutoStartWindow(now).0,
                        autoOffTime := AutoStartWindow(now).1)
  {
    var w := AutoStartWindow(now);
    MapMatching(exams, id, (e: Exam) => e.(autoMode := true, autoOnTime := w.0, autoOffTime := w.1))
  }

  /** An exam started automatically is `Ongoing` after a tick at the same time,
      and its window closes one hour after it opens. */
  lemma EnableAutoStartThenTick(exams: seq<Exam>, id: Option<ExamId>, now: int, i: int)
    requires 0 <= i < |exams| && exams[i].id == id
    ensures var r := EnableAutoStartById(exams, id, now);
      r[i].autoMode && r[i].autoOnTime.At? && r[i].autoOffTime.At? &&
      r[i].autoOffTime.ms == r[i].autoOnTime.ms + Hour &&
      StatusResolver.Tick(r, now)[i].status == Ongoing
  {
    var r := EnableAutoStartById(exams, id, now);
    StatusResolver.TickEntersWindow(r, now, i);
  }

  // ----- how the draft's server round trips compare with the served page -----

  /** When the service echoes the requested status, the draft's `toggleStatus`
      leaves the list exactly as the served page's local toggle does. */
  lemma ToggleStatusEchoMatchesLocal(exams: seq<Exam>, id: Option<ExamId>)
    requires UniqueIds(exams) && id.Some? && Find(exams, id).Some?
    ensures MergeById(exams, id, StatusRequest(Toggled(Find(exams, id).value.status))) ==
            ToggleStatusById(exams, id)
  {
    var found := Find(exams, id).value;
    var r := MergeById(exams, id, StatusRequest(Toggled(found.status)));
    var t := ToggleStatusById(exams, id);
    forall i | 0 <= i < |exams|
      ensures r[i] == t[i]
    {
      if exams[i].id == id {
        FindUnique(exams, id, i);
      }
    }
  }

  /** When the service echoes the request, disabling auto mode empties both
      timers as the served page does, while enabling keeps the exam's times. */
  lemma ToggleAutoModeEcho(exams: seq<Exam>, id: Option<ExamId>, i: int)
    requires UniqueIds(exams) && id.Some? && 0 <= i < |exams| && exams[i].id == id
    ensures var r := MergeById(exams, id, AutoModeRequest(Find(exams, id).value));
      r[i].autoMode == !exams[i].autoMode &&
      r[i].status == exams[i].status &&
      (exams[i].autoMode ==> r[i].autoOnTime == Unset && r[i].autoOffTime == Unset) &&
      (!exams[i].autoMode ==> r[i].autoOnTime == exams[i].autoOnTime &&
                              r[i].autoOffTime == exams[i].autoOffTime)
  {
    FindUnique(exams, id, i);
  }

  /** The page's state: the lab's exams, the inline exam editor and the
      add-exam form. */
  class Page {
    const labId: LabId
    var exams: seq<Exam>
    var editing: Editing
    var examEditName: string
    var examEditUrl: string
    var newExamName: string
    var newExamUrl: string
    var showAddExamModal: bool
    var addingExam: bool

    constructor (labId: LabId)
      ensures this.labId == labId && exams == [] && editing == NotEditing
      ensures examEditName == "" && examEditUrl == ""
      ensures newExamName == "" && newExamUrl == "" && !showAddExamModal && !addingExam
    {
      this.labId := labId;
      exams, editing := [], NotEditing;
      examEditName, examEditUrl := "", "";
      newExamName, newExamUrl := "", "";
      showAddExamModal, addingExam := false, false;
    }

    /** A successful fetch of the lab's exams, with ids normalised. */
    method Load(raws: seq<RawExam>)
      modifies this`exams
      ensures exams == NormaliseAll(raws)
    {
      exams := NormaliseAll(raws);
    }

    /** One tick of the status updater at local time `now`. */
    method Tick(now: int)
      modifies this`exams
      ensures exams == StatusResolver.Tick(old(exams), now)
    {
      exams := StatusResolver.Tick(exams, now);
    }

    /** `startEditingExam`: open the editor on the exam's name and URL. */
    method StartEditingExam(e: Exam)
      modifies this`editing, this`examEditName, this`examEditUrl
      ensures editing == EditingExam(e.id) && examEditName == e.name && examEditUrl == e.url
    {
      editing, examEditName, examEditUrl := EditingExam(e.id), e.name, e.url;
    }

    /** `cancelEditingExam`: close the editor, keeping the list. */
    method CancelEditingExam()
      modifies this`editing
      ensures editing == NotEditing
    {
      editing := NotEditing;
    }

    /** `saveExamEdits`: the request it sends (none for a blank name or URL)
        and, when the service answers with the updated record, its merging
        into the exams carrying `examId` and the closing of the editor. */
    method SaveExamEdits(examId: Option<ExamId>, response: Option<Patch>) returns (request: Option<Patch>)
      modifies this`exams, this`editing
      ensures request == EditRequestFor(examEditName, examEditUrl)
      ensures request.None? || response.None? ==> exams == old(exams) && editing == old(editing)
      ensures request.Some? && response.Some? ==>
        exams == MergeById(old(exams), examId, response.value) && editing == NotEditing
    {
      request := EditRequestFor(examEditName, examEditUrl);
      if request.Some? && response.Some? {
        exams, editing := MergeById(exams, examId, response.value), NotEditing;
      }
    }

    /** `removeExam`: asks for confirmation, then, once the service confirms
        the deletion (`deleted`), drops every exam carrying `examId`.
        `requested` tells whether the delete request was sent. */
    method RemoveExam(examId: Option<ExamId>, confirmed: bool, deleted: bool) returns (requested: bool)
      modifies this`exams
      ensures requested == confirmed
      ensures exams == if confirmed && deleted then RemoveById(old(exams), examId) else old(exams)
    {
      requested := confirmed;
      if confirmed && deleted {
        exams := RemoveById(exams, examId);
      }
    }

    /** `toggleStatus`: looks the exam up, asks for confirmation, requests
        the toggled status and merges the service's answer. */
    method ToggleStatus(examId: Option<ExamId>, confirmed: bool, response: Option<Patch>)
      returns (request: Option<Patch>)
      modifies this`exams
      ensures request.Some? <==> confirmed && Find(old(exams), examId).Some?
      ensures request.Some? ==>
        request.value == StatusRequest(Toggled(Find(old(exams), examId).value.status))
      ensures exams == if request.Some? && response.Some?
                       then MergeById(old(exams), examId, response.value) else old(exams)
    {
      var found := Find(exams, examId);
      request := None;
      if found.Some? && confirmed {
        request := Some(StatusRequest(Toggled(found.value.status)));
        if response.Some? {
          exams := MergeById(exams, examId, response.value);
        }
      }
    }

    /** `toggleAutoMode`: looks the exam up, asks for confirmation, requests
        the flipped flag with the times kept or emptied, and merges the
        service's answer. */
    method ToggleAutoMode(examId: Option<ExamId>, confirmed: bool, response: Option<Patch>)
      returns (request: Option<Patch>)
      modifies this`exams
      ensures request.Some? <==> confirmed && Find(old(exams), examId).Some?
      ensures request.Some? ==> request.value == AutoModeRequest(Find(old(exams), examId).value)
      ensures exams == if request.Some? && response.Some?
                       then MergeById(old(exams), examId, response.value) else old(exams)
    {
      var found := Find(exams, examId);
      request := None;
      if found.Some? && confirmed {
        request := Some(AutoModeRequest(found.value));
        if response.Some? {
          exams := MergeById(exams, examId, response.value);
        }
      }
    }

    /** `enableAutoStart` at local time `now`. */
    method EnableAutoStart(examId: Option<ExamId>, now: int)
      modifies this`exams
      ensures exams == EnableAutoStartById(old(exams), examId, now)
    {
      exams := EnableAutoStartById(exams, examId, now);
    }

    /** `updateTimer`: one timer field of the exams carrying `examId`. */
    method UpdateTimer(examId: Option<ExamId>, field: TimerField, value: Stamp)
      modifies this`exams
      ensures exams == UpdateTimerById(old(exams), examId, field, value)
    {
      exams := UpdateTimerById(exams, examId, field, value);
    }

    /** `saveAutoMode`: looks the exam up, requests auto mode with its current
        times and merges the service's answer. */
    method SaveAutoMode(examId: Option<ExamId>, response: Option<Patch>) returns (request: Option<Patch>)
      modifies this`exams
      ensures request.Some? <==> Find(old(exams), examId).Some?
      ensures request.Some? ==> request.value == SaveAutoModeRequest(Find(old(exams), examId).value)
      ensures exams == if request.Some? && response.Some?
                       then MergeById(old(exams), examId, response.value) else old(exams)
    {
      var found := Find(exams, examId);
      request := None;
      if found.Some? {
        request := Some(SaveAutoModeRequest(found.value));
        if response.Some? {
          exams := MergeById(exams, examId, response.value);
        }
      }
    }

    /** `addExam`: the request it sends (none for a blank name or URL) and,
        when the service answers with the created record, its appending.
        `created` is that answer; `None` when the request fails. */
    method AddExam(created: Option<RawExam>) returns (request: Option<NewExamRequest>)
      modifies this`exams, this`newExamName, this`newExamUrl, this`showAddExamModal, this`addingExam
      ensures request == NewExamRequestFor(old(newExamName), old(newExamUrl), labId)
      ensures request.None? ==> unchanged(this)
      ensures request.Some? ==> !addingExam
      ensures request.Some? && created.None? ==>
        (exams == old(exams) && newExamName == old(newExamName) &&
         newExamUrl == old(newExamUrl) && showAddExamModal == old(showAddExamModal))
      ensures request.Some? && created.Some? ==>
        (exams == AppendCreated(old(exams), created.value) &&
         newExamName == "" && newExamUrl == "" && !showAddExamModal)
    {
      request := NewExamRequestFor(newExamName, newExamUrl, labId);
      if request.Some? {
        addingExam := true;
        if created.Some? {
          exams := AppendCreated(exams, created.value);
          newExamName, newExamUrl := "", "";
          showAddExamModal := false;
        }
        addingExam := false;
      }
    }
  }
}
