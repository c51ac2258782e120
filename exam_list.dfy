/** Maintenance of the exam list keyed by exam id: the `map`, `filter`, `find`
    and spread expressions both lab-details pages apply to their exams. Ids
    are compared as JavaScript's `===` compares them, so a missing id matches
    another missing id. */
module ExamList {
  import opened ExamRecords

  /** `exams.map(e => e.id === id ? f(e) : e)`. */
  function MapMatching(exams: seq<Exam>, id: Option<ExamId>, f: Exam -> Exam): (r: seq<Exam>)
    ensures |r| == |exams|
    ensures forall i :: 0 <= i < |exams| ==> r[i] == if exams[i].id == id then f(exams[i]) else exams[i]
  {
    seq(|exams|, i requires 0 <= i < |exams| => if exams[i].id == id then f(exams[i]) else exams[i])
  }

  /** When no exam carries `id`, mapping over the matching exams changes nothing. */
  lemma MapMatchingAbsent(exams: seq<Exam>, id: Option<ExamId>, f: Exam -> Exam)
    requires forall i :: 0 <= i < |exams| ==> exams[i].id != id
    ensures MapMatching(exams, id, f) == exams
  {
  }

  // ----- removing -----

  /** `exams.filter(e => e.id !== id)`. */
  function RemoveById(exams: seq<Exam>, id: Option<ExamId>): (r: seq<Exam>)
    ensures |r| <= |exams|
    ensures forall e :: e in r <==> e in exams && e.id != id
  {
    if exams == [] then []
    else if exams[0].id == id then RemoveById(exams[1..], id)
    else [exams[0]] + RemoveById(exams[1..], id)
  }

  /** Removing works piecewise, so the exams kept stay in their original order. */
  lemma {:induction false} RemoveByIdConcat(xs: seq<Exam>, ys: seq<Exam>, id: Option<ExamId>)
    ensures RemoveById(xs + ys, id) == RemoveById(xs, id) + RemoveById(ys, id)
  {
    if xs == [] {
      assert xs + ys == ys;
    } else {
      assert (xs + ys)[0] == xs[0];
      assert (xs + ys)[1..] == xs[1..] + ys;
      RemoveByIdConcat(xs[1..], ys, id);
      var rest := RemoveById(xs[1..], id);
      assert [xs[0]] + (rest + RemoveById(ys, id)) == ([xs[0]] + rest) + RemoveById(ys, id);
    }
  }

  /** Removing an id no exam carries leaves the list as it was. */
  lemma {:induction false} RemoveByIdAbsent(exams: seq<Exam>, id: Option<ExamId>)
    requires forall i :: 0 <= i < |exams| ==> exams[i].id != id
    ensures RemoveById(exams, id) == exams
  {
    if exams != [] {
      RemoveByIdAbsent(exams[1..], id);
    }
  }

  /** Removing the same id a second time changes nothing. */
  lemma RemoveByIdIdempotent(exams: seq<Exam>, id: Option<ExamId>)
    ensures RemoveById(RemoveById(exams, id), id) == RemoveById(exams, id)
  {
    var r := RemoveById(exams, id);
    forall i | 0 <= i < |r|
      ensures r[i].id != id
    {
      assert r[i] in r;
    }
    RemoveByIdAbsent(r, id);
  }

  // ----- appending -----

  /** The record the page appends for an exam the service has just created:
      its id is taken from the response's `_id`, the other fields copied. */
  function CreatedRecord(created: RawExam): (r: Exam)
    ensures r.id == created.mongoId && r.name == created.name && r.url == created.url
    ensures r.status == created.status && r.autoMode == created.autoMode
    ensures r.autoOnTime == created.autoOnTime && r.autoOffTime == created.autoOffTime
  {
    Exam(created.mongoId, created.name, created.url, created.status,
         created.autoMode, created.autoOnTime, created.autoOffTime)
  }

  /** `[...exams, record]`: exactly one exam more, at the end. */
  function AppendCreated(exams: seq<Exam>, created: RawExam): (r: seq<Exam>)
    ensures |r| == |exams| + 1 && r[..|exams|] == exams && r[|exams|] == CreatedRecord(created)
  {
    exams + [CreatedRecord(created)]
  }

  /** Removing a freshly created exam by its id undoes its addition. */
  lemma AppendThenRemove(exams: seq<Exam>, created: RawExam)
    requires forall i :: 0 <= i < |exams| ==> exams[i].id != created.mongoId
    ensures RemoveById(AppendCreated(exams, created), created.mongoId) == exams
  {
    RemoveByIdConcat(exams, [CreatedRecord(created)], created.mongoId);
    RemoveByIdAbsent(exams, created.mongoId);
  }

  /** Appending an exam whose id is new keeps the ids unique. */
  lemma AppendKeepsUnique(exams: seq<Exam>, created: RawExam)
    requires UniqueIds(exams)
    requires forall i :: 0 <= i < |exams| ==> exams[i].id != created.mongoId
    ensures UniqueIds(AppendCreated(exams, created))
  {
  }

  // ----- finding -----

  /** The position `exams.find(e => e.id === id)` stops at: the first exam
      carrying `id`, or `|exams|` when there is none. */
  function FindIndex(exams: seq<Exam>, id: Option<ExamId>): (k: nat)
    ensures k <= |exams|
    ensures forall j :: 0 <= j < k ==> exams[j].id != id
    ensures k < |exams| ==> exams[k].id == id
  {
    if exams == [] then 0
    else if exams[0].id == id then 0
    else 1 + FindIndex(exams[1..], id)
  }

  /** `exams.find(e => e.id === id)`: the first exam carrying `id`. */
  function Find(exams: seq<Exam>, id: Option<ExamId>): (r: Option<Exam>)
    ensures r.None? <==> forall i :: 0 <= i < |exams| ==> exams[i].id != id
    ensures r.Some? ==> r.value.id == id && r.value in exams
    ensures r.Some? ==> r.value == exams[FindIndex(exams, id)]
  {
    var k := FindIndex(exams, id);
    if k < |exams| then Some(exams[k]) else None
  }

  /** When ids are unique, the exam found is the only one carrying `id`. */
  lemma FindUnique(exams: seq<Exam>, id: Option<ExamId>, i: int)
    requires UniqueIds(exams) && id.Some?
    requires 0 <= i < |exams| && exams[i].id == id
    ensures Find(exams, id) == Some(exams[i])
  {
    var k := FindIndex(exams, id);
    assert k <= i;
  }

  // ----- merging a server response -----

  /** The value of a property in a spread: the patch's when present. */
  function Over<T>(p: Option<T>, d: T): T {
    if p.Some? then p.value else d
  }

  /** `{...e, ...patch}`: every property the patch carries overrides, every
      other one is kept. */
  function Merge(e: Exam, p: Patch): (r: Exam)
    ensures p.id.Some? ==> r.id == p.id
    ensures p.status.Some? ==> r.status == p.status.value
    ensures p.autoMode.Some? ==> r.autoMode == p.autoMode.value
    ensures p.name.Some? ==> r.name == p.name.value
    ensures p.url.Some? ==> r.url == p.url.value
    ensures p.autoOnTime.Some? ==> r.autoOnTime == p.autoOnTime.value
    ensures p.autoOffTime.Some? ==> r.autoOffTime == p.autoOffTime.value
    ensures p.id.None? ==> r.id == e.id
    ensures p.name.None? ==> r.name == e.name
    ensures p.url.None? ==> r.url == e.url
    ensures p.status.None? ==> r.status == e.status
    ensures p.autoMode.None? ==> r.autoMode == e.autoMode
    ensures p.autoOnTime.None? ==> r.autoOnTime == e.autoOnTime
    ensures p.autoOffTime.None? ==> r.autoOffTime == e.autoOffTime
  {
    Exam(if p.id.Some? then p.id else e.id, Over(p.name, e.name), Over(p.url, e.url), Over(p.status, e.status),
         Over(p.autoMode, e.autoMode), Over(p.autoOnTime, e.autoOnTime),
         Over(p.autoOffTime, e.autoOffTime))
  }

  /** Every property the patch carries is the one the record holds. */
  predicate Agrees(e: Exam, p: Patch) {
    (p.id.Some? ==> e.id == p.id) &&
    (p.name.Some? ==> e.name == p.name.value) &&
    (p.url.Some? ==> e.url == p.url.value) &&
    (p.status.Some? ==> e.status == p.status.value) &&
    (p.autoMode.Some? ==> e.autoMode == p.autoMode.value) &&
    (p.autoOnTime.Some? ==> e.autoOnTime == p.autoOnTime.value) &&
    (p.autoOffTime.Some? ==> e.autoOffTime == p.autoOffTime.value)
  }

  /** After a merge the record agrees with the patch, and a merge changes a
      record exactly when the record does not already agree with it. */
  lemma MergeAgrees(e: Exam, p: Patch)
    ensures Agrees(Merge(e, p), p)
    ensures Merge(e, p) == e <==> Agrees(e, p)
  {
  }

  /** Merging the same response twice gives what merging it once gives; an
      empty response changes nothing. */
  lemma MergeIdempotent(e: Exam, p: Patch)
    ensures Merge(Merge(e, p), p) == Merge(e, p)
    ensures Merge(e, EmptyPatch) == e
  {
  }

  /** `exams.map(e => e.id === id ? {...e, ...patch} : e)`. */
  function MergeById(exams: seq<Exam>, id: Option<ExamId>, p: Patch): (r: seq<Exam>)
    ensures |r| == |exams|
    ensures forall i :: 0 <= i < |exams| && exams[i].id != id ==> r[i] == exams[i]
    ensures forall i :: 0 <= i < |exams| && exams[i].id == id ==> Agrees(r[i], p)
    ensures forall i :: 0 <= i < |exams| && exams[i].id == id ==> r[i] == Merge(exams[i], p)
  {
    MapMatching(exams, id, (e: Exam) => Merge(e, p))
  }

  // ----- normalising ids on fetch -----

  /** `{id: raw._id || raw.id, ...raw}` as far as the exam record goes: an own
      `id` wins because the spread comes last; otherwise a non-empty `_id`
      supplies it. */
  function Normalise(raw: RawExam): (r: Exam)
    ensures raw.ownId.Some? ==> r.id == raw.ownId
    ensures raw.ownId.None? && raw.mongoId.Some? && raw.mongoId.value != "" ==> r.id == raw.mongoId
    ensures r.id.Some? <==> raw.ownId.Some? || (raw.mongoId.Some? && raw.mongoId.value != "")
    ensures r.name == raw.name && r.url == raw.url && r.status == raw.status
    ensures r.autoMode == raw.autoMode && r.autoOnTime == raw.autoOnTime && r.autoOffTime == raw.autoOffTime
  {
    var id := if raw.ownId.Some? then raw.ownId
              else if raw.mongoId.Some? && raw.mongoId.value != "" then raw.mongoId
              else None;
    Exam(id, raw.name, raw.url, raw.status, raw.autoMode, raw.autoOnTime, raw.autoOffTime)
  }

  /** The fetched list with every record normalised, in order. */
  function NormaliseAll(raws: seq<RawExam>): (r: seq<Exam>)
    ensures |r| == |raws|
    ensures forall i :: 0 <= i < |raws| ==> r[i] == Normalise(raws[i])
  {
    seq(|raws|, i requires 0 <= i < |raws| => Normalise(raws[i]))
  }

  /** Records the service identifies only by distinct non-empty `_id`s. */
  predicate KeyedByMongoId(raws: seq<RawExam>) {
    (forall i :: 0 <= i < |raws| ==>
       raws[i].ownId.None? && raws[i].mongoId.Some? && raws[i].mongoId.value != "") &&
    (forall i, j :: 0 <= i < j < |raws| ==> raws[i].mongoId != raws[j].mongoId)
  }

  /** Normalising records keyed by `_id` gives every exam a defined id and no
      two exams the same one. */
  lemma NormaliseAllKeys(raws: seq<RawExam>)
    requires KeyedByMongoId(raws)
    ensures UniqueIds(NormaliseAll(raws))
    ensures forall i :: 0 <= i < |raws| ==> NormaliseAll(raws)[i].id == raws[i].mongoId
  {
  }

  // ----- status and timers -----

  /** The status a toggle moves to: `Running` and `Ongoing` stop, anything
      else starts running. */
  function Toggled(s: Status): (r: Status)
    ensures r == Stopped <==> s == Running || s == Ongoing
    ensures r == Running <==> s == Stopped
  {
    match s
    case Running => Stopped
    case Ongoing => Stopped
    case Stopped => Running
  }

  /** Toggling twice restores a manual status; an `Ongoing` exam comes back
      `Running`. */
  lemma ToggledTwice(s: Status)
    ensures s != Ongoing ==> Toggled(Toggled(s)) == s
    ensures s == Ongoing ==> Toggled(Toggled(s)) == Running
  {
  }

  /** Every exam carrying `id` gets the toggled status; nothing else changes. */
  function ToggleStatusById(exams: seq<Exam>, id: Option<ExamId>): (r: seq<Exam>)
    ensures |r| == |exams|
    ensures forall i :: 0 <= i < |exams| && exams[i].id != id ==> r[i] == exams[i]
    ensures forall i :: 0 <= i < |exams| && exams[i].id == id ==>
      r[i] == exams[i].(status := Toggled(exams[i].status))
  {
    MapMatching(exams, id, (e: Exam) => e.(status := Toggled(e.status)))
  }

  /** `{...exam, [field]: value}`. */
  function SetTimer(e: Exam, field: TimerField, value: Stamp): (r: Exam)
    ensures field == AutoOnTime ==> r == e.(autoOnTime := value)
    ensures field == AutoOffTime ==> r == e.(autoOffTime := value)
  {
    match field
    case AutoOnTime => e.(autoOnTime := value)
    case AutoOffTime => e.(autoOffTime := value)
  }

  /** `updateTimer(id, field, value)` on the list. */
  function UpdateTimerById(exams: seq<Exam>, id: Option<ExamId>, field: TimerField, value: Stamp): (r: seq<Exam>)
    ensures |r| == |exams|
    ensures forall i :: 0 <= i < |exams| && exams[i].id != id ==> r[i] == exams[i]
    ensures forall i :: 0 <= i < |exams| && exams[i].id == id ==> r[i] == SetTimer(exams[i], field, value)
  {
    MapMatching(exams, id, (e: Exam) => SetTimer(e, field, value))
  }

  /** Setting a timer field touches only that field: the other timer and
      every other property keep their values. */
  lemma UpdateTimerOnlyField(exams: seq<Exam>, id: Option<ExamId>, field: TimerField, value: Stamp, i: int)
    requires 0 <= i < |exams| && exams[i].id == id
    ensures var r := UpdateTimerById(exams, id, field, value)[i];
      r.id == exams[i].id && r.name == exams[i].name && r.url == exams[i].url &&
      r.status == exams[i].status && r.autoMode == exams[i].autoMode &&
      (if field == AutoOnTime then r.autoOnTime == value && r.autoOffTime == exams[i].autoOffTime
       else r.autoOffTime == value && r.autoOnTime == exams[i].autoOnTime)
  {
  }
}
