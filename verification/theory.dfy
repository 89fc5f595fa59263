/**
 Equal-tempered note arithmetic of the fretboard helpers: the note under a
 finger on a standard-tuned guitar, scale spelling, interval names and
 scientific pitch names. Everything is arithmetic modulo 12 over the
 chromatic alphabet and a few constant tables.
 */
module Theory {
  import opened Options
  import opened Notes
  import Decimal

  /** Strings are numbered 0 (high E) to 5 (low E). */
  const StringCount: nat := 6

  /** The pitch class of each open string, as a position in the chromatic alphabet (E, B, G, D, A, E). */
  const TuningOffsets: seq<nat> := [4, 11, 7, 2, 9, 4]

  /** The MIDI number of each open string (E4, B3, G3, D3, A2, E2). */
  const OpenStringMidi: seq<nat> := [64, 59, 55, 50, 45, 40]

  /** The octave number of each open string in scientific pitch notation. */
  const OpenOctaves: seq<nat> := [4, 3, 3, 3, 2, 2]

  /** A fretted note: its name and how many whole octaves it lies above the open string's pitch class. */
  datatype FretNote = FretNote(note: NoteName, octaveShift: nat)

  /**
   The note at `fret` on string `stringIndex`: the open string's pitch class
   raised by `fret` semitones, split into a name and a count of octaves.
   */
  function NoteAtFret(stringIndex: int, fret: nat): (r: FretNote)
    requires 0 <= stringIndex < StringCount
    ensures 12 * r.octaveShift + IndexOf(r.note) == TuningOffsets[stringIndex] + fret
  {
    var total := TuningOffsets[stringIndex] + fret;
    FretNote(NoteAt(total % 12), total / 12)
  }

  /** Twelve frets higher is the same note one octave up. */
  lemma {:induction false} NoteAtFretOctavePeriodic(stringIndex: int, fret: nat)
    requires 0 <= stringIndex < StringCount
    ensures NoteAtFret(stringIndex, fret + 12).note == NoteAtFret(stringIndex, fret).note
    ensures NoteAtFret(stringIndex, fret + 12).octaveShift == NoteAtFret(stringIndex, fret).octaveShift + 1
  {
    var lo := NoteAtFret(stringIndex, fret);
    var hi := NoteAtFret(stringIndex, fret + 12);
    assert 12 * hi.octaveShift + IndexOf(hi.note) == 12 * (lo.octaveShift + 1) + IndexOf(lo.note);
    DivModUnique(hi.octaveShift, IndexOf(hi.note), lo.octaveShift + 1, IndexOf(lo.note));
    IndexOfInjective(hi.note, lo.note);
  }

  /** A number has only one split into whole octaves and a remainder below 12. */
  lemma DivModUnique(q1: int, r1: int, q2: int, r2: int)
    requires 0 <= r1 < 12 && 0 <= r2 < 12
    requires 12 * q1 + r1 == 12 * q2 + r2
    ensures q1 == q2 && r1 == r2
  {
  }

  /** The open strings, from string 0 to string 5, sound E, B, G, D, A, E. */
  lemma OpenStringNotes()
    ensures seq(StringCount, s requires 0 <= s < StringCount => NoteAtFret(s, 0).note) == [E, B, G, D, A, E]
  {
  }

  /** Fretting raises the open string's note by one semitone per fret. */
  lemma NoteAtFretIsTransposition(stringIndex: int, fret: nat)
    requires 0 <= stringIndex < StringCount
    ensures NoteAtFret(stringIndex, fret).note == Transpose(NoteAtFret(stringIndex, 0).note, fret)
  {
    var offset := TuningOffsets[stringIndex];
    assert offset < 12;
    assert IndexOf(NoteAtFret(stringIndex, 0).note) == offset by {
      assert NoteAtFret(stringIndex, 0).note == NoteAt(offset % 12);
    }
  }

  // ---------------------------------------------------------------- scales

  datatype ScaleType = Major | Minor | PentatonicMajor | PentatonicMinor | Blues | Chromatic

  /** A scale: its display name and its degrees as semitones above the root. */
  datatype ScaleDefinition = ScaleDefinition(name: string, intervals: seq<nat>)

  /** SCALE_PATTERNS. */
  function ScalePattern(t: ScaleType): (r: ScaleDefinition)
    ensures |r.intervals| > 0 && r.intervals[0] == 0
    ensures forall i :: 0 <= i < |r.intervals| ==> r.intervals[i] < 12
  {
    match t
    case Major => ScaleDefinition("Major (大调)", [0, 2, 4, 5, 7, 9, 11])
    case Minor => ScaleDefinition("Natural Minor (小调)", [0, 2, 3, 5, 7, 8, 10])
    case PentatonicMajor => ScaleDefinition("Major Pentatonic (五声音阶)", [0, 2, 4, 7, 9])
    case PentatonicMinor => ScaleDefinition("Minor Pentatonic (布鲁斯五声)", [0, 3, 5, 7, 10])
    case Blues => ScaleDefinition("Blues (蓝调)", [0, 3, 5, 6, 7, 10])
    case Chromatic => ScaleDefinition("Chromatic (半音阶)", [0, 1, 2, 3, 4, 5, 6, 7, 8, 9, 10, 11])
  }

  /** A pattern starts at the root and climbs strictly within one octave. */
  predicate WellFormedPattern(intervals: seq<nat>)
  {
    && |intervals| > 0
    && intervals[0] == 0
    && (forall i :: 0 <= i < |intervals| ==> intervals[i] < 12)
    && (forall i, j :: 0 <= i < j < |intervals| ==> intervals[i] < intervals[j])
  }

  /** Every degree of every pattern lies within one octave. */
  lemma PatternsWithinOctave(t: ScaleType)
    ensures forall i :: 0 <= i < |ScalePattern(t).intervals| ==> ScalePattern(t).intervals[i] < 12
  {
  }

  /** Each degree of the pattern is above the one before it. */
  predicate ClimbsStepwise(intervals: seq<nat>)
  {
    forall i :: 0 < i < |intervals| ==> intervals[i - 1] < intervals[i]
  }

  /** Climbing at every step means every later degree is above every earlier one. */
  lemma {:induction false} StepwiseIsStrictlyIncreasing(intervals: seq<nat>)
    requires ClimbsStepwise(intervals)
    ensures forall i, j :: 0 <= i < j < |intervals| ==> intervals[i] < intervals[j]
    decreases |intervals|
  {
    if |intervals| > 1 {
      var init := intervals[..|intervals| - 1];
      assert ClimbsStepwise(init) by {
        forall i | 0 < i < |init|
          ensures init[i - 1] < init[i]
        {
          assert init[i - 1] == intervals[i - 1] && init[i] == intervals[i];
        }
      }
      StepwiseIsStrictlyIncreasing(init);
      forall i, j | 0 <= i < j < |intervals|
        ensures intervals[i] < intervals[j]
      {
        if j < |intervals| - 1 {
          assert intervals[i] == init[i] && intervals[j] == init[j];
        } else if i < j - 1 {
          assert intervals[i] == init[i] && intervals[j - 1] == init[j - 1];
        }
      }
    }
  }

  /** Every pattern of the table is well formed. */
  lemma PatternsWellFormed(t: ScaleType)
    ensures WellFormedPattern(ScalePattern(t).intervals)
  {
    var intervals := ScalePattern(t).intervals;
    PatternsWithinOctave(t);
    assert ClimbsStepwise(intervals) by {
      match t
      case Major =>
      case Minor =>
      case PentatonicMajor =>
      case PentatonicMinor =>
      case Blues =>
      case Chromatic =>
    }
    StepwiseIsStrictlyIncreasing(intervals);
  }

  /**
   The notes of the scale of type `t` on `root`, in pattern order: the i-th
   note lies exactly the pattern's i-th interval above the root.
   */
  function ScaleNotes(root: NoteName, t: ScaleType): (r: seq<NoteName>)
    ensures |r| == |ScalePattern(t).intervals|
    ensures forall i :: 0 <= i < |r| ==> Interval(root, r[i]) == ScalePattern(t).intervals[i]
  {
    var intervals := ScalePattern(t).intervals;
    PatternsWithinOctave(t);
    var r := seq(|intervals|, i requires 0 <= i < |intervals| => Transpose(root, intervals[i]));
    assert forall i :: 0 <= i < |r| ==> Interval(root, r[i]) == intervals[i] by {
      forall i | 0 <= i < |r| {
        IntervalOfTranspose(root, intervals[i]);
      }
    }
    r
  }

  /** Every scale begins on its root. */
  lemma ScaleStartsAtRoot(root: NoteName, t: ScaleType)
    ensures |ScaleNotes(root, t)| > 0 && ScaleNotes(root, t)[0] == root
  {
    PatternsWellFormed(t);
  }

  /** A note belongs to a scale exactly when its interval from the root is one of the pattern's degrees. */
  lemma ScaleMembership(root: NoteName, t: ScaleType, n: NoteName)
    ensures n in ScaleNotes(root, t) <==> Interval(root, n) in ScalePattern(t).intervals
  {
    var r := ScaleNotes(root, t);
    var intervals := ScalePattern(t).intervals;
    if Interval(root, n) in intervals {
      var i :| 0 <= i < |intervals| && intervals[i] == Interval(root, n);
      assert Interval(root, r[i]) == Interval(root, n);
      assert Transpose(root, Interval(root, r[i])) == r[i];
      assert r[i] == n;
    }
  }

  /** No scale names a note twice. */
  lemma ScaleHasNoDuplicates(root: NoteName, t: ScaleType)
    ensures forall i, j :: 0 <= i < j < |ScaleNotes(root, t)| ==> ScaleNotes(root, t)[i] != ScaleNotes(root, t)[j]
  {
    PatternsWellFormed(t);
  }

  /** The chromatic pattern lists every semitone count from 0 to 11, each at its own position. */
  lemma ChromaticPattern()
    ensures |ScalePattern(Chromatic).intervals| == 12
    ensures forall k :: 0 <= k < 12 ==> ScalePattern(Chromatic).intervals[k] == k
  {
  }

  /** Every note occurs in the chromatic scale on any root, at its interval above the root. */
  lemma ChromaticContains(root: NoteName, n: NoteName)
    ensures n in ScaleNotes(root, Chromatic)
  {
    ChromaticPattern();
    var r := ScaleNotes(root, Chromatic);
    var k := Interval(root, n);
    assert Interval(root, r[k]) == k;
    assert r[k] == Transpose(root, k) == n;
  }

  /** The chromatic scale names each of the twelve notes exactly once, on any root. */
  lemma ChromaticCoversAllNotesOnce(root: NoteName)
    ensures |ScaleNotes(root, Chromatic)| == 12
    ensures forall n: NoteName :: n in ScaleNotes(root, Chromatic)
    ensures forall i, j :: 0 <= i < j < 12 ==> ScaleNotes(root, Chromatic)[i] != ScaleNotes(root, Chromatic)[j]
  {
    ChromaticPattern();
    ScaleHasNoDuplicates(root, Chromatic);
    forall n: NoteName
      ensures n in ScaleNotes(root, Chromatic)
    {
      ChromaticContains(root, n);
    }
  }

  // ------------------------------------------------------------- intervals

  /** Short interval names, indexed by semitones above the root. */
  const IntervalShortNames: seq<string> := ["R", "b2", "2", "b3", "3", "4", "b5", "5", "b6", "6", "b7", "7"]

  /** Long interval names, in the same order. */
  const IntervalLongNames: seq<string> := [
    "Root (根音)", "Minor 2nd (小二度)", "Major 2nd (大二度)", "Minor 3rd (小三度)",
    "Major 3rd (大三度)", "Perfect 4th (纯四度)", "Diminished 5th (减五度)", "Perfect 5th (纯五度)",
    "Minor 6th (小六度)", "Major 6th (大六度)", "Minor 7th (小七度)", "Major 7th (大七度)"]

  /** The twelve short names are pairwise distinct, non-empty, and none of them is the fallback `'?'`. */
  lemma ShortNamesDistinct()
    ensures forall i, j :: 0 <= i < j < 12 ==> IntervalShortNames[i] != IntervalShortNames[j]
    ensures forall i :: 0 <= i < 12 ==> IntervalShortNames[i] != "" && IntervalShortNames[i] != "?"
    ensures forall i :: 0 <= i < 12 ==> (IntervalShortNames[i] == "R" <==> i == 0)
  {
  }

  /** Each short name occurs once in the table, so looking it up finds its own position. */
  lemma FindShortName(k: nat)
    requires k < 12
    ensures FindString(IntervalShortNames, IntervalShortNames[k]) == k
  {
    var i := FindString(IntervalShortNames, IntervalShortNames[k]);
    if i < k {
      ShortNamesDistinct();
    }
  }

  /** JavaScript's `x || fallback` applied to a table lookup: an absent or empty entry gives the fallback. */
  function OrElse(x: Option<string>, fallback: string): (r: string)
    ensures r == fallback || (x.Some? && r == x.value && r != "")
    ensures x.Some? && x.value != "" ==> r == x.value
    ensures x.None? || x.value == "" ==> r == fallback
  {
    if x.Some? && x.value != "" then x.value else fallback
  }

  /** The interval table keyed by semitone count, with no entry outside 0..11. */
  function IntervalMap(semitones: int): (r: Option<string>)
    ensures r.Some? <==> 0 <= semitones < 12
    ensures r.Some? ==> r.value == IntervalShortNames[semitones] && r.value != ""
  {
    ShortNamesDistinct();
    if 0 <= semitones < 12 then Some(IntervalShortNames[semitones]) else None
  }

  /**
   The short name of the interval from `root` up to `note`. The difference of
   positions is brought into one octave before the lookup, so the name always
   comes from the table and the `'?'` fallback is unreachable.
   */
  function IntervalName(root: NoteName, note: NoteName): (r: string)
    ensures r == IntervalShortNames[Interval(root, note)]
    ensures r == "R" <==> note == root
    ensures r != "?"
  {
    var semitones := Interval(root, note);
    ShortNamesDistinct();
    OrElse(IntervalMap(semitones), "?")
  }

  /** The position of `s` in `table`, or -1 when it is absent. */
  function FindString(table: seq<string>, s: string): (i: int)
    ensures -1 <= i < |table|
    ensures 0 <= i ==> table[i] == s && forall j :: 0 <= j < i ==> table[j] != s
    ensures i == -1 <==> s !in table
    decreases |table|
  {
    if |table| == 0 then -1
    else if table[|table| - 1] == s && FindString(table[..|table| - 1], s) == -1 then |table| - 1
    else FindString(table[..|table| - 1], s)
  }

  /** The semitone count a short interval name stands for, if it is one. */
  function SemitonesOfName(name: string): (r: Option<nat>)
    ensures r.Some? <==> name in IntervalShortNames
    ensures r.Some? ==> r.value < 12 && IntervalShortNames[r.value] == name
  {
    var i := FindString(IntervalShortNames, name);
    if i < 0 then None else Some(i)
  }

  /** The short name of an interval determines it: reading it back recovers the semitone count and hence the note. */
  lemma IntervalNameRoundTrip(root: NoteName, note: NoteName)
    ensures SemitonesOfName(IntervalName(root, note)) == Some(Interval(root, note))
    ensures Transpose(root, SemitonesOfName(IntervalName(root, note)).value) == note
  {
    FindShortName(Interval(root, note));
  }

  /** The i-th note of a scale is named by the interval of the pattern's i-th degree. */
  lemma ScaleIntervalNames(root: NoteName, t: ScaleType, i: nat)
    requires i < |ScaleNotes(root, t)|
    ensures IntervalName(root, ScaleNotes(root, t)[i]) == IntervalShortNames[ScalePattern(t).intervals[i]]
  {
  }

  /** The long-name table keyed by short name. */
  function FullIntervalMap(shortName: string): (r: Option<string>)
    ensures r.Some? <==> shortName in IntervalShortNames
    ensures forall i :: 0 <= i < 12 && shortName == IntervalShortNames[i] ==> r == Some(IntervalLongNames[i])
  {
    ShortNamesDistinct();
    var i := FindString(IntervalShortNames, shortName);
    if i < 0 then None else Some(IntervalLongNames[i])
  }

  /**
   The long name of a short interval name. An absent or empty name gives the
   empty string; a string that is not one of the twelve short names is
   returned as it is.
   */
  function FullIntervalName(shortName: Option<string>): (r: string)
    ensures shortName.None? || shortName.value == "" ==> r == ""
    ensures forall i :: 0 <= i < 12 && shortName == Some(IntervalShortNames[i]) ==> r == IntervalLongNames[i]
    ensures shortName.Some? && shortName.value != "" && shortName.value !in IntervalShortNames ==> r == shortName.value
  {
    ShortNamesDistinct();
    match shortName
    case None => ""
    case Some(s) => if s == "" then "" else OrElse(FullIntervalMap(s), s)
  }

  /** Naming an interval and then expanding the name gives the long name of that interval. */
  lemma FullNameOfInterval(root: NoteName, note: NoteName)
    ensures FullIntervalName(Some(IntervalName(root, note))) == IntervalLongNames[Interval(root, note)]
  {
  }

  // ------------------------------------------------------ scientific pitch

  /** The scientific pitch name ("E2") of the note at `fret` on string `stringIndex`. */
  function ScientificPitch(stringIndex: int, fret: nat): (r: string)
    requires 0 <= stringIndex < StringCount
    ensures 2 <= |r|
  {
    var midi := OpenStringMidi[stringIndex] + fret;
    assert midi >= 24;
    var octave: nat := midi / 12 - 1;
    Text(AllNotes[midi % 12]) + Decimal.NatToString(octave)
  }

  /** Reads a scientific pitch name: a note name followed by a non-empty run of decimal digits. */
  function ParsePitch(s: string): (r: Option<Pitch>)
    ensures r.Some? ==> r.value.octave >= 0
  {
    var k := if |s| >= 2 && s[1] == '#' then 2 else 1;
    if |s| <= k then None
    else
      var i := TextIndex(s[..k]);
      if i < 0 || !Decimal.AllDigits(s[k..]) then None
      else Some(Pitch(NoteAt(i), Decimal.ParseNat(s[k..])))
  }

  /** The MIDI table and the pitch-class table describe the same tuning. */
  lemma TuningTablesAgree(stringIndex: int)
    requires 0 <= stringIndex < StringCount
    ensures OpenStringMidi[stringIndex] == 12 * (OpenOctaves[stringIndex] + 1) + TuningOffsets[stringIndex]
    ensures OpenStringMidi[stringIndex] % 12 == TuningOffsets[stringIndex]
  {
  }

  /**
   The scientific pitch name of a fretted note reads back as the note that
   NoteAtFret finds there, in the open string's octave raised by NoteAtFret's
   octave shift.
   */
  lemma ScientificPitchAgreesWithNoteAtFret(stringIndex: int, fret: nat)
    requires 0 <= stringIndex < StringCount
    ensures ScientificPitch(stringIndex, fret)
         == Text(NoteAtFret(stringIndex, fret).note)
          + Decimal.NatToString(OpenOctaves[stringIndex] + NoteAtFret(stringIndex, fret).octaveShift)
    ensures ParsePitch(ScientificPitch(stringIndex, fret))
         == Some(Pitch(NoteAtFret(stringIndex, fret).note,
                       OpenOctaves[stringIndex] + NoteAtFret(stringIndex, fret).octaveShift))
  {
    var fn := NoteAtFret(stringIndex, fret);
    var oct := OpenOctaves[stringIndex] + fn.octaveShift;
    ScientificPitchText(stringIndex, fret);
    var text := Text(fn.note);
    var digits := Decimal.NatToString(oct);
    var s := ScientificPitch(stringIndex, fret);
    assert s == text + digits;
    var k := if |s| >= 2 && s[1] == '#' then 2 else 1;
    assert k == |text| by {
      if |text| == 1 {
        assert s[1] == digits[0];
      }
    }
    assert s[..k] == text;
    assert s[k..] == digits;
    TextIndexOfText(fn.note);
    Decimal.ParseNatToString(oct);
  }

  /**
   The scientific pitch name of a fretted note is the text of the note
   NoteAtFret finds, followed by the decimal octave: the open string's octave
   raised by NoteAtFret's octave shift.
   */
  lemma ScientificPitchText(stringIndex: int, fret: nat)
    requires 0 <= stringIndex < StringCount
    ensures ScientificPitch(stringIndex, fret)
         == Text(NoteAtFret(stringIndex, fret).note)
          + Decimal.NatToString(OpenOctaves[stringIndex] + NoteAtFret(stringIndex, fret).octaveShift)
  {
    var fn := NoteAtFret(stringIndex, fret);
    var midi := OpenStringMidi[stringIndex] + fret;
    TuningTablesAgree(stringIndex);
    var oct := OpenOctaves[stringIndex] + fn.octaveShift;
    assert midi == 12 * (oct + 1) + IndexOf(fn.note);
    DivModUnique(midi / 12, midi % 12, oct + 1, IndexOf(fn.note));
    IndexOfInjective(AllNotes[midi % 12], fn.note);
  }


  /** The open low E, open A and open high E strings read E2, A2 and E4. */
  lemma ScientificPitchExamples()
    ensures ScientificPitch(5, 0) == "E2"
    ensures ScientificPitch(4, 0) == "A2"
    ensures ScientificPitch(0, 0) == "E4"
  {
    assert Decimal.NatToString(2) == "2";
    assert Decimal.NatToString(4) == "4";
    assert ScientificPitch(5, 0) == Text(E) + "2";
    assert ScientificPitch(4, 0) == Text(A) + "2";
    assert ScientificPitch(0, 0) == Text(E) + "4";
  }
}
