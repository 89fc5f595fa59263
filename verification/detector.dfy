/**
 The debounce state machine of the pitch detector and its start/stop
 lifecycle. Each animation-frame tick delivers one of: silence (the frame's
 RMS is at or below the noise gate), a frame the estimator rejected, or a
 MIDI estimate. A note is reported once it has been estimated on
 `StableFrames` frames with no silence and no different estimate between them
 (a rejected frame does not break the streak), and not again until a
 different note has been reported or the trigger memory has been cleared.
 */
module Detector {
  import opened Options

  /** Consecutive agreeing estimates needed before a note is reported. */
  const StableFrames: nat := 3

  /** The "no note" marker the source keeps in its MIDI fields. */
  const NoMidi: int := -1

  /** The status reported to the consumer. */
  datatype MicStatus = Idle | Listening | Error

  /**
   The detector's state: whether the loop is running, the MIDI number seen on
   the latest estimated frame and how many consecutive estimated frames agreed
   on it, and the MIDI number last reported.
   */
  datatype State = State(running: bool, lastDetectedMidi: int, stableCount: nat, lastTriggeredMidi: int)

  /** What one tick of the detection loop saw. */
  datatype Tick =
    | Silent             // RMS at or below the noise gate
    | Rejected           // loud enough, but no period passed the confidence test
    | Estimate(midi: int) // the MIDI number of the detected frequency

  /** A freshly constructed detector: stopped, nothing seen, nothing reported. */
  const Initial: State := State(false, NoMidi, 0, NoMidi)

  /** The debounce memory is empty: nothing accumulated and nothing reported. */
  predicate Cleared(st: State)
  {
    st.lastDetectedMidi == NoMidi && st.stableCount == 0 && st.lastTriggeredMidi == NoMidi
  }

  /**
   One estimated frame: count it towards the current candidate if it agrees
   with the previous estimate, else start a new candidate; report the
   candidate once it has `StableFrames` agreeing frames unless it is the note
   last reported. Reporting sets the last reported note and nothing else.
   */
  function HandleDetection(st: State, midi: int): (r: (State, Option<int>))
    ensures r.0.running == st.running
    ensures r.0.lastDetectedMidi == midi
    ensures midi == st.lastDetectedMidi ==> r.0.stableCount == st.stableCount + 1
    ensures midi != st.lastDetectedMidi ==> r.0.stableCount == 1
    ensures r.1.Some? <==> r.0.stableCount >= StableFrames && midi != st.lastTriggeredMidi
    ensures r.1.Some? ==> r.1.value == midi && r.0.lastTriggeredMidi == midi
    ensures r.1.None? ==> r.0.lastTriggeredMidi == st.lastTriggeredMidi
  {
    var counted :=
      if midi == st.lastDetectedMidi then st.(stableCount := st.stableCount + 1)
      else st.(lastDetectedMidi := midi, stableCount := 1);
    if counted.stableCount >= StableFrames && midi != counted.lastTriggeredMidi then
      (counted.(lastTriggeredMidi := midi), Some(midi))
    else
      (counted, None)
  }

  /**
   One tick of the detection loop. A stopped detector does nothing. Silence
   clears the candidate but keeps the memory of the last reported note; a
   rejected frame leaves the state as it is.
   */
  function Step(st: State, tick: Tick): (r: (State, Option<int>))
    ensures !st.running ==> r == (st, None)
    ensures st.running && tick.Silent? ==> r == (st.(lastDetectedMidi := NoMidi, stableCount := 0), None)
    ensures st.running && tick.Rejected? ==> r == (st, None)
    ensures st.running && tick.Estimate? ==> r == HandleDetection(st, tick.midi)
    ensures r.0.running == st.running
    ensures r.1.Some? ==> tick == Estimate(r.1.value) && r.0.lastTriggeredMidi == r.1.value
    ensures r.1.None? ==> r.0.lastTriggeredMidi == st.lastTriggeredMidi
  {
    if !st.running then (st, None)
    else
      match tick
      case Silent => (st.(lastDetectedMidi := NoMidi, stableCount := 0), None)
      case Rejected => (st, None)
      case Estimate(midi) => HandleDetection(st, midi)
  }

  /**
   `start` and `startWithStream`: nothing happens while already running;
   otherwise, when the microphone is acquired, the detector runs from a
   cleared debounce memory and reports `listening`, and when acquisition
   fails it stays stopped and reports `error`.
   */
  function Start(st: State, acquired: bool): (r: (State, Option<MicStatus>))
    ensures st.running ==> r == (st, None)
    ensures !st.running && acquired ==> r.0.running && Cleared(r.0) && r.1 == Some(Listening)
    ensures !st.running && !acquired ==> r.0 == st && r.1 == Some(Error)
  {
    if st.running then (st, None)
    else if acquired then (State(true, NoMidi, 0, NoMidi), Some(Listening))
    else (st, Some(Error))
  }

  /** `stop`: the loop stops and `idle` is reported; the debounce memory is left as it is. */
  function Stop(st: State): (r: (State, MicStatus))
    ensures !r.0.running && r.1 == Idle
    ensures r.0.(running := st.running) == st
  {
    (st.(running := false), Idle)
  }

  /** `resetTriggered`: the debounce memory is cleared; running or not is left as it is. */
  function ResetTriggered(st: State): (r: State)
    ensures Cleared(r) && r.running == st.running
  {
    st.(lastTriggeredMidi := NoMidi, lastDetectedMidi := NoMidi, stableCount := 0)
  }

  /** Stopping twice is stopping once. */
  lemma StopIdempotent(st: State)
    ensures Stop(Stop(st).0) == Stop(st)
  {
  }

  /** Whatever state a session ended in, stopping and starting again leaves no debounce memory behind. */
  lemma RestartClears(st: State)
    ensures Start(Stop(st).0, true).0.running
    ensures Cleared(Start(Stop(st).0, true).0)
  {
  }

  // ------------------------------------------------------------ sessions

  /** Everything the consumer can do to the detector, and the ticks of its loop. */
  datatype Event =
    | Frame(tick: Tick)
    | StartEvent(acquired: bool)
    | StopEvent
    | ResetEvent

  /** The effect of one event, and the note it reports, if any. */
  function Apply(st: State, e: Event): (r: (State, Option<int>))
    ensures r.1.Some? ==> e.Frame? && e.tick == Estimate(r.1.value)
  {
    match e
    case Frame(tick) => Step(st, tick)
    case StartEvent(acquired) => (Start(st, acquired).0, None)
    case StopEvent => (Stop(st).0, None)
    case ResetEvent => (ResetTriggered(st), None)
  }

  /**
   Runs a sequence of events, collecting the report (or its absence) of each.
   The i-th output belongs to the i-th event: a report there is that event's
   own estimate.
   */
  function Run(st: State, events: seq<Event>): (r: (State, seq<Option<int>>))
    ensures |r.1| == |events|
    ensures forall i :: 0 <= i < |events| && r.1[i].Some? ==> events[i] == Frame(Estimate(r.1[i].value))
    decreases |events|
  {
    if |events| == 0 then (st, [])
    else
      var (next, out) := Apply(st, events[0]);
      var (last, outs) := Run(next, events[1..]);
      (last, [out] + outs)
  }

  /** The notes reported, in order. */
  function Reported(outs: seq<Option<int>>): (r: seq<int>)
    ensures |r| <= |outs|
    decreases |outs|
  {
    if |outs| == 0 then []
    else if outs[0].Some? then [outs[0].value] + Reported(outs[1..])
    else Reported(outs[1..])
  }

  function Repeat(e: Event, k: nat): (r: seq<Event>)
    ensures |r| == k
    ensures forall i :: 0 <= i < k ==> r[i] == e
  {
    if k == 0 then [] else [e] + Repeat(e, k - 1)
  }

  /** An event that neither clears the trigger memory nor starts the detector afresh. */
  predicate KeepsTrigger(e: Event)
  {
    e.Frame? || e.StopEvent? || (e.StartEvent? && !e.acquired)
  }

  /**
   Once a note has been reported, and while it is still the running
   candidate, further estimates of it report nothing: the cooldown holds
   however long the note rings.
   */
  lemma {:induction false} CooldownHolds(st: State, m: int, k: nat)
    requires st.running && st.lastDetectedMidi == m && st.lastTriggeredMidi == m && st.stableCount >= 1
    ensures forall i :: 0 <= i < k ==> Run(st, Repeat(Frame(Estimate(m)), k)).1[i].None?
    ensures Run(st, Repeat(Frame(Estimate(m)), k)).0 == st.(stableCount := st.stableCount + k)
    decreases k
  {
    if k > 0 {
      var events := Repeat(Frame(Estimate(m)), k);
      var next := Apply(st, events[0]).0;
      assert next == st.(stableCount := st.stableCount + 1);
      assert events[1..] == Repeat(Frame(Estimate(m)), k - 1);
      CooldownHolds(next, m, k - 1);
    }
  }

  /**
   From a running state whose candidate and last report both differ from
   `m`, `k` estimates of `m` in a row report `m` exactly once, on the third
   of them, and nothing when `k` is below three.
   */
  lemma {:induction false} ReportOnThirdAgreeingFrame(st: State, m: int, k: nat)
    requires st.running && st.lastDetectedMidi != m && st.lastTriggeredMidi != m
    ensures forall i :: 0 <= i < k ==> Run(st, Repeat(Frame(Estimate(m)), k)).1[i] == (if i == 2 then Some(m) else None)
    ensures Reported(Run(st, Repeat(Frame(Estimate(m)), k)).1) == (if k >= 3 then [m] else [])
  {
    var e := Frame(Estimate(m));
    var s1 := State(true, m, 1, st.lastTriggeredMidi);
    var s2 := s1.(stableCount := 2);
    var s3 := State(true, m, 3, m);
    assert Apply(st, e) == (s1, None);
    assert Apply(s1, e) == (s2, None);
    assert Apply(s2, e) == (s3, Some(m));
    var outs := Run(st, Repeat(e, k)).1;
    if k > 0 {
      assert Repeat(e, k)[1..] == Repeat(e, k - 1);
      var outs1 := Run(s1, Repeat(e, k - 1)).1;
      assert outs == [None] + outs1;
      assert outs[1..] == outs1;
      if k > 1 {
        assert Repeat(e, k - 1)[1..] == Repeat(e, k - 2);
        var outs2 := Run(s2, Repeat(e, k - 2)).1;
        assert outs1 == [None] + outs2;
        assert outs1[1..] == outs2;
        if k > 2 {
          assert Repeat(e, k - 2)[1..] == Repeat(e, k - 3);
          var outs3 := Run(s3, Repeat(e, k - 3)).1;
          assert outs2 == [Some(m)] + outs3;
          assert outs2[1..] == outs3;
          CooldownHolds(s3, m, k - 3);
          NothingReported(outs3);
          assert Reported(outs2) == [m];
          assert Reported(outs) == Reported(outs1) == Reported(outs2);
        }
      }
    }
  }

  /** A run of absent reports reports nothing. */
  lemma {:induction false} NothingReported(outs: seq<Option<int>>)
    requires forall i :: 0 <= i < |outs| ==> outs[i].None?
    ensures Reported(outs) == []
    decreases |outs|
  {
    if |outs| > 0 {
      NothingReported(outs[1..]);
    }
  }

  /**
   Starting a stopped detector and playing one note for `k` frames reports
   it exactly once, on the third frame, provided the note is not the
   sentinel -1 that the source also uses for "no note".
   */
  lemma ReportOnceAfterStart(st: State, m: int, k: nat)
    requires !st.running && m != NoMidi
    ensures Reported(Run(Start(st, true).0, Repeat(Frame(Estimate(m)), k)).1) == (if k >= 3 then [m] else [])
  {
    ReportOnThirdAgreeingFrame(Start(st, true).0, m, k);
  }

  /**
   After `resetTriggered` on a running detector, playing one note for `k`
   frames reports it exactly once, on the third frame.
   */
  lemma ReportOnceAfterReset(st: State, m: int, k: nat)
    requires st.running && m != NoMidi
    ensures Reported(Run(ResetTriggered(st), Repeat(Frame(Estimate(m)), k)).1) == (if k >= 3 then [m] else [])
  {
    ReportOnThirdAgreeingFrame(ResetTriggered(st), m, k);
  }

  /**
   The MIDI number -1 coincides with the "no note" marker: from cleared
   memory it counts as agreeing with the empty candidate and equals the
   empty last report, so no number of frames ever reports it.
   */
  lemma {:induction false} MarkerNeverReported(st: State, k: nat)
    requires st.running && st.lastDetectedMidi == NoMidi && st.lastTriggeredMidi == NoMidi
    ensures Reported(Run(st, Repeat(Frame(Estimate(NoMidi)), k)).1) == []
    ensures Run(st, Repeat(Frame(Estimate(NoMidi)), k)).0 == st.(stableCount := st.stableCount + k)
    decreases k
  {
    if k > 0 {
      var events := Repeat(Frame(Estimate(NoMidi)), k);
      var (next, out) := Apply(st, events[0]);
      assert next == st.(stableCount := st.stableCount + 1) && out == None;
      assert events[1..] == Repeat(Frame(Estimate(NoMidi)), k - 1);
      MarkerNeverReported(next, k - 1);
      var outs := Run(st, events).1;
      assert outs == [out] + Run(next, events[1..]).1;
      assert outs[1..] == Run(next, events[1..]).1;
    }
  }

  /**
   No two successive reports name the same note unless `resetTriggered` or a
   successful start comes between them; silence, rejected frames and
   stopping do not count. The first report also differs from the note
   already remembered, and the memory ends on the last report.
   */
  lemma {:induction false} NoRepeatWithoutReset(st: State, events: seq<Event>)
    requires forall i :: 0 <= i < |events| ==> KeepsTrigger(events[i])
    ensures var rep := Reported(Run(st, events).1);
      && (|rep| > 0 ==> rep[0] != st.lastTriggeredMidi)
      && (forall i :: 0 < i < |rep| ==> rep[i] != rep[i - 1])
      && Run(st, events).0.lastTriggeredMidi == (if |rep| > 0 then rep[|rep| - 1] else st.lastTriggeredMidi)
    decreases |events|
  {
    if |events| > 0 {
      var (next, out) := Apply(st, events[0]);
      assert events[0].Frame? ==> next.lastTriggeredMidi == (if out.Some? then out.value else st.lastTriggeredMidi);
      NoRepeatWithoutReset(next, events[1..]);
      var outs := Run(st, events).1;
      assert outs == [out] + Run(next, events[1..]).1;
      assert outs[1..] == Run(next, events[1..]).1;
    }
  }

  /**
   Playing the same note over and over, with any silences, rejected frames or
   stops in between, reports it at most once, and not at all if it was the
   note last reported: a silent gap does not re-arm the trigger.
   */
  lemma {:induction false} SameNoteReportedAtMostOnce(st: State, m: int, events: seq<Event>)
    requires forall i :: 0 <= i < |events| ==> KeepsTrigger(events[i])
    requires forall i :: 0 <= i < |events| ==> events[i].Frame? && events[i].tick.Estimate? ==> events[i].tick.midi == m
    ensures |Reported(Run(st, events).1)| <= 1
    ensures st.lastTriggeredMidi == m ==> Reported(Run(st, events).1) == []
    decreases |events|
  {
    if |events| > 0 {
      var (next, out) := Apply(st, events[0]);
      SameNoteReportedAtMostOnce(next, m, events[1..]);
      var outs := Run(st, events).1;
      assert outs == [out] + Run(next, events[1..]).1;
      assert outs[1..] == Run(next, events[1..]).1;
      if out.Some? {
        assert next.lastTriggeredMidi == m;
      } else {
        assert next.lastTriggeredMidi == st.lastTriggeredMidi;
      }
    }
  }

  /** Every reported note was estimated on some frame of the run. */
  lemma {:induction false} OnlyEstimatesReported(st: State, events: seq<Event>)
    ensures forall x :: x in Reported(Run(st, events).1) ==> Frame(Estimate(x)) in events
    decreases |events|
  {
    if |events| > 0 {
      var (next, out) := Apply(st, events[0]);
      OnlyEstimatesReported(next, events[1..]);
      var outs := Run(st, events).1;
      assert outs == [out] + Run(next, events[1..]).1;
      assert outs[1..] == Run(next, events[1..]).1;
      assert events == [events[0]] + events[1..];
    }
  }

  /** A stopped detector ignores its ticks entirely. */
  lemma {:induction false} StoppedIgnoresFrames(st: State, events: seq<Event>)
    requires !st.running
    requires forall i :: 0 <= i < |events| ==> events[i].Frame?
    ensures Run(st, events).0 == st
    ensures Reported(Run(st, events).1) == []
    decreases |events|
  {
    if |events| > 0 {
      StoppedIgnoresFrames(st, events[1..]);
    }
  }

  // ---------------------------------------------------------- invariants

  /**
   The states the detector can reach: an empty count goes with no candidate,
   and a candidate that has reached `StableFrames` is the note last reported
   (the "cooldown" phase).
   */
  predicate Reachable(st: State)
  {
    && (st.stableCount == 0 ==> st.lastDetectedMidi == NoMidi)
    && (st.stableCount >= StableFrames ==> st.lastTriggeredMidi == st.lastDetectedMidi)
  }

  /** The phases of the debounce filter, read off the state. */
  datatype Phase = Waiting | Accumulating(note: int, count: nat) | Cooldown(note: int)

  function PhaseOf(st: State): Phase
  {
    if st.stableCount == 0 then Waiting
    else if st.stableCount < StableFrames then Accumulating(st.lastDetectedMidi, st.stableCount)
    else Cooldown(st.lastDetectedMidi)
  }

  /** Every event keeps the detector among its reachable states. */
  lemma ApplyKeepsReachable(st: State, e: Event)
    requires Reachable(st)
    ensures Reachable(Apply(st, e).0)
  {
  }

  /** Every run from a reachable state stays reachable. */
  lemma {:induction false} RunKeepsReachable(st: State, events: seq<Event>)
    requires Reachable(st)
    ensures Reachable(Run(st, events).0)
    decreases |events|
  {
    if |events| > 0 {
      ApplyKeepsReachable(st, events[0]);
      RunKeepsReachable(Apply(st, events[0]).0, events[1..]);
    }
  }

  /** Every state a freshly constructed detector can be driven into is reachable. */
  lemma InitialRunsAreReachable(events: seq<Event>)
    ensures Reachable(Run(Initial, events).0)
  {
    RunKeepsReachable(Initial, events);
  }

  /** In the cooldown phase the candidate is the note last reported, so further estimates of it report nothing. */
  lemma CooldownIsLastReported(st: State, e: Event)
    requires Reachable(st) && PhaseOf(st).Cooldown?
    ensures st.lastTriggeredMidi == PhaseOf(st).note
    ensures e == Frame(Estimate(PhaseOf(st).note)) ==> Apply(st, e).1 == None
  {
  }
}
