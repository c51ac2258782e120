/** The auto-status resolver: on every tick the page maps its exam list to a
    new one in which auto-mode exams follow their on/off window. Only `status`
    ever changes, and only under the window rule. */
module StatusResolver {
  import opened ExamRecords

  /** The tick looks at an exam at all: auto mode is on and both time fields
      are non-empty. */
  predicate Governed(e: Exam) {
    e.autoMode && e.autoOnTime.IsSet() && e.autoOffTime.IsSet()
  }

  /** `now` lies in the exam's window, both ends included. An unparsable field
      compares false with every instant, so no such window holds `now`. */
  predicate InWindow(e: Exam, now: int) {
    e.autoOnTime.At? && e.autoOffTime.At? && e.autoOnTime.ms <= now <= e.autoOffTime.ms
  }

  /** The status rule applied to one exam at time `now`. */
  function Resolve(e: Exam, now: int): (r: Exam)
    ensures r == e.(status := r.status)
  {
    if Governed(e) && InWindow(e, now) then e.(status := Ongoing)
    else if Governed(e) && e.status == Ongoing then e.(status := Stopped)
    else e
  }

  /** One tick of the status updater at time `now`: the rule applied to every
      exam, in order. */
  function Tick(exams: seq<Exam>, now: int): (r: seq<Exam>)
    ensures |r| == |exams|
    ensures forall i :: 0 <= i < |exams| ==> r[i] == Resolve(exams[i], now)
  {
    seq(|exams|, i requires 0 <= i < |exams| => Resolve(exams[i], now))
  }

  /** The state the rule aims at: a governed exam is `Ongoing` exactly when
      `now` lies in its window. */
  predicate Settled(e: Exam, now: int) {
    Governed(e) ==> (e.status == Ongoing <==> InWindow(e, now))
  }

  /** A governed exam whose window holds `now` is `Ongoing` after the tick,
      whatever its status was. */
  lemma TickEntersWindow(exams: seq<Exam>, now: int, i: int)
    requires 0 <= i < |exams| && Governed(exams[i]) && InWindow(exams[i], now)
    ensures Tick(exams, now)[i].status == Ongoing
  {
  }

  /** A governed exam outside its window leaves `Ongoing` for `Stopped`, and
      keeps a manual `Running` or `Stopped`. */
  lemma TickOutsideWindow(exams: seq<Exam>, now: int, i: int)
    requires 0 <= i < |exams| && Governed(exams[i]) && !InWindow(exams[i], now)
    ensures exams[i].status == Ongoing ==> Tick(exams, now)[i].status == Stopped
    ensures exams[i].status != Ongoing ==> Tick(exams, now)[i] == exams[i]
  {
  }

  /** An exam not in auto mode, or with an empty on or off time, is left as
      it is. */
  lemma TickIgnoresUngoverned(exams: seq<Exam>, now: int, i: int)
    requires 0 <= i < |exams| && !Governed(exams[i])
    ensures Tick(exams, now)[i] == exams[i]
  {
  }

  /** A governed exam with an unparsable time never becomes `Ongoing`. */
  lemma TickUnparsableNeverOngoing(exams: seq<Exam>, now: int, i: int)
    requires 0 <= i < |exams| && Governed(exams[i])
    requires exams[i].autoOnTime == Unparsable || exams[i].autoOffTime == Unparsable
    ensures Tick(exams, now)[i].status != Ongoing
  {
  }

  /** The tick keeps the list's length and order and changes no field of any
      exam but its status. */
  lemma TickOnlyStatus(exams: seq<Exam>, now: int)
    ensures |Tick(exams, now)| == |exams|
    ensures forall i :: 0 <= i < |exams| ==>
      Tick(exams, now)[i].(status := exams[i].status) == exams[i]
  {
  }

  /** After a tick every exam is settled. */
  lemma {:induction false} TickSettles(exams: seq<Exam>, now: int)
    ensures forall i :: 0 <= i < |exams| ==> Settled(Tick(exams, now)[i], now)
  {
    forall i | 0 <= i < |exams|
      ensures Settled(Tick(exams, now)[i], now)
    {
      var e := exams[i];
      assert Governed(Resolve(e, now)) == Governed(e);
      assert InWindow(Resolve(e, now), now) == InWindow(e, now);
    }
  }

  /** A tick changes nothing exactly when every exam is already settled. */
  lemma {:induction false} TickFixedPointIffSettled(exams: seq<Exam>, now: int)
    ensures Tick(exams, now) == exams <==> forall i :: 0 <= i < |exams| ==> Settled(exams[i], now)
  {
    var r := Tick(exams, now);
    if forall i :: 0 <= i < |exams| ==> Settled(exams[i], now) {
      forall i | 0 <= i < |exams|
        ensures r[i] == exams[i]
      {
        assert Settled(exams[i], now);
      }
    }
    if r == exams {
      forall i | 0 <= i < |exams|
        ensures Settled(exams[i], now)
      {
        assert r[i] == Resolve(exams[i], now);
      }
    }
  }

  /** Ticking twice at the same instant gives what ticking once gives. */
  lemma {:induction false} TickIdempotent(exams: seq<Exam>, now: int)
    ensures Tick(Tick(exams, now), now) == Tick(exams, now)
  {
    TickSettles(exams, now);
    TickFixedPointIffSettled(Tick(exams, now), now);
  }

  /** The ticks of a run of the status updater, at the instants `nows` in
      order; after a run of at least one tick every exam is settled at the
      last instant. */
  function TickAll(exams: seq<Exam>, nows: seq<int>): (r: seq<Exam>)
    ensures |r| == |exams|
    ensures nows != [] ==> forall i :: 0 <= i < |r| ==> Settled(r[i], nows[|nows| - 1])
    decreases |nows|
  {
    if nows == [] then exams
    else if |nows| == 1 then TickSettles(exams, nows[0]); Tick(exams, nows[0])
    else TickAll(Tick(exams, nows[0]), nows[1..])
  }

  /** However many ticks run, an exam not in auto mode, or with an empty on
      or off time, keeps its status and every other field. */
  lemma {:induction false} TickAllIgnoresUngoverned(exams: seq<Exam>, nows: seq<int>, i: int)
    requires 0 <= i < |exams| && !Governed(exams[i])
    ensures TickAll(exams, nows)[i] == exams[i]
    decreases |nows|
  {
    if nows != [] {
      TickIgnoresUngoverned(exams, nows[0], i);
      TickAllIgnoresUngoverned(Tick(exams, nows[0]), nows[1..], i);
    }
  }

  /** An exam from 10:00 to 11:00 that is `Stopped` turns `Ongoing` on a tick
      at 10:30 and back to `Stopped` on a tick at 11:01. */
  lemma WindowScenario(e: Exam, ten: int)
    requires e.autoMode && e.status == Stopped
    requires e.autoOnTime == At(ten) && e.autoOffTime == At(ten + Hour)
    ensures Tick(Tick([e], ten + 30 * Minute), ten + 61 * Minute)[0].status == Stopped
    ensures Tick([e], ten + 30 * Minute)[0].status == Ongoing
  {
  }
}
