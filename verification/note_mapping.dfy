/**
 The integer step of the pitch detector that names a MIDI note number: a
 pitch class from a doubly-wrapped remainder and an octave from a floored
 division, so that MIDI 60 is C4 and MIDI 69 is A4. The rounding of a
 frequency to a MIDI number is floating-point work and is not part of this
 module; the MIDI number is the input.
 */
module NoteMapping {
  import opened Options
  import opened Notes
  import Theory

  /**
   JavaScript's `a % 12` on integers: the remainder of the division truncated
   toward zero, which takes the sign of the dividend.
   */
  function JsRem12(a: int): (r: int)
    ensures -12 < r < 12
    ensures a >= 0 ==> r >= 0
    ensures a < 0 ==> r <= 0
    ensures (a - r) % 12 == 0
  {
    if a >= 0 then a % 12 else -((-a) % 12)
  }

  /**
   The pitch-class index of a MIDI note, `((midi % 12) + 12) % 12` with
   JavaScript's remainder: in range for every MIDI number, negative ones
   included, and equal to the mathematical residue.
   */
  function NoteIndex(midi: int): (i: int)
    ensures 0 <= i < 12
    ensures i == midi % 12
  {
    JsRem12(JsRem12(midi) + 12)
  }

  /**
   The octave of a MIDI note, `floor(midi / 12) - 1`: the octave whose
   twelve MIDI numbers contain `midi`.
   */
  function Octave(midi: int): (o: int)
    ensures 12 * (o + 1) <= midi < 12 * (o + 2)
  {
    midi / 12 - 1
  }

  /** The pitch the detector reports for a MIDI estimate. */
  function MidiToPitch(midi: int): (p: Pitch)
    ensures IndexOf(p.note) == midi % 12
    ensures 12 * (p.octave + 1) <= midi < 12 * (p.octave + 2)
  {
    Pitch(AllNotes[NoteIndex(midi)], Octave(midi))
  }

  /** The MIDI number of a pitch: twelve per octave, with C-1 at 0. */
  function PitchToMidi(p: Pitch): int
  {
    12 * (p.octave + 1) + IndexOf(p.note)
  }

  /** Naming a MIDI number loses nothing: the number is recovered from the pitch. */
  lemma PitchToMidiOfMidiToPitch(midi: int)
    ensures PitchToMidi(MidiToPitch(midi)) == midi
  {
    var p := MidiToPitch(midi);
    assert IndexOf(p.note) == midi % 12 by {
      assert p.note == NoteAt(NoteIndex(midi));
    }
  }

  /** Every pitch is the name of exactly its own MIDI number. */
  lemma MidiToPitchOfPitchToMidi(p: Pitch)
    ensures MidiToPitch(PitchToMidi(p)) == p
  {
    var midi := PitchToMidi(p);
    var q := MidiToPitch(midi);
    PitchToMidiOfMidiToPitch(midi);
    Theory.DivModUnique(q.octave + 1, IndexOf(q.note), p.octave + 1, IndexOf(p.note));
    IndexOfInjective(q.note, p.note);
  }

  /** Two MIDI numbers get the same name only if they are equal. */
  lemma MidiToPitchInjective(m1: int, m2: int)
    ensures MidiToPitch(m1) == MidiToPitch(m2) ==> m1 == m2
  {
    PitchToMidiOfMidiToPitch(m1);
    PitchToMidiOfMidiToPitch(m2);
  }

  /** Raising a note by an octave keeps its name and adds one to its octave. */
  lemma MidiToPitchOctavePeriodic(midi: int)
    ensures MidiToPitch(midi + 12) == Pitch(MidiToPitch(midi).note, MidiToPitch(midi).octave + 1)
  {
    var p := MidiToPitch(midi);
    var q := Pitch(p.note, p.octave + 1);
    PitchToMidiOfMidiToPitch(midi);
    assert PitchToMidi(q) == midi + 12;
    MidiToPitchOfPitchToMidi(q);
  }

  /**
   Concert A is A4, the A below it A3, and the open low E string E2; MIDI
   -1, the detector's "no note" marker, would itself be named B-2.
   */
  lemma MidiToPitchExamples()
    ensures MidiToPitch(69) == Pitch(A, 4)
    ensures MidiToPitch(57) == Pitch(A, 3)
    ensures MidiToPitch(40) == Pitch(E, 2)
    ensures MidiToPitch(-1) == Pitch(B, -2)
  {
  }

  /** The detector's name for the MIDI number of a fretted note is the note NoteAtFret finds, in the octave it implies. */
  lemma MidiToPitchOfFret(stringIndex: int, fret: nat)
    requires 0 <= stringIndex < Theory.StringCount
    ensures MidiToPitch(Theory.OpenStringMidi[stringIndex] + fret)
         == Pitch(Theory.NoteAtFret(stringIndex, fret).note,
                  Theory.OpenOctaves[stringIndex] + Theory.NoteAtFret(stringIndex, fret).octaveShift)
  {
    var fn := Theory.NoteAtFret(stringIndex, fret);
    var p := Pitch(fn.note, Theory.OpenOctaves[stringIndex] + fn.octaveShift);
    Theory.TuningTablesAgree(stringIndex);
    assert PitchToMidi(p) == Theory.OpenStringMidi[stringIndex] + fret;
    MidiToPitchOfPitchToMidi(p);
  }

  /**
   The detector's naming of a MIDI number and the fretboard's scientific
   pitch name agree on every fretted note of the standard tuning.
   */
  lemma DetectorAgreesWithFretboard(stringIndex: int, fret: nat)
    requires 0 <= stringIndex < Theory.StringCount
    ensures Theory.ParsePitch(Theory.ScientificPitch(stringIndex, fret))
         == Some(MidiToPitch(Theory.OpenStringMidi[stringIndex] + fret))
  {
    Theory.ScientificPitchAgreesWithNoteAtFret(stringIndex, fret);
    MidiToPitchOfFret(stringIndex, fret);
  }
}
