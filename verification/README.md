# Guitar fretboard trainer: note arithmetic and pitch-detector control, in Dafny

This project models the discrete core of a guitar fretboard trainer. The core has two parts.

- **The equal-tempered note arithmetic of the fretboard helpers** (`utils/musicTheory.ts`) covers:
  - the note under a finger in standard tuning;
  - scale spelling from the scale patterns;
  - interval short names and long names;
  - chord spelling: the distinct sounded notes, sorted upward from the chord's root;
  - scientific pitch names such as "E2".
- **The integer and control logic of the microphone pitch detector** (`utils/pitchDetector.ts`) covers:
  - the debounce state machine, which reports a note after three agreeing estimated frames and, without a reset or restart between, never reports the same note twice in a row;
  - the start, stop and reset lifecycle;
  - the MIDI-number-to-name mapping;
  - the lag range of the autocorrelation search;
  - the first-maximum selection and the confidence rejection;
  - the guarded parabolic refinement of the winning lag.

Modules:

| file | module | contents |
|---|---|---|
| `options.dfy` | `Options` | `Option` |
| `notes.dfy` | `Notes` | the twelve names, positions, transposition, intervals, the text of a name |
| `decimal.dfy` | `Decimal` | decimal text of octave numbers, and its reader |
| `theory.dfy` | `Theory` | fretboard, scales, interval names, scientific pitch |
| `chords.dfy` | `Chords` | chord spelling: dedupe, root prefix, stable sort by distance |
| `detector.dfy` | `Detector` | debounce automaton, lifecycle, whole-session lemmas |
| `note_mapping.dfy` | `NoteMapping` | MIDI number to note name and octave |
| `period_search.dfy` | `PeriodSearch` | lag range, best-lag search, rejection, parabolic refinement |

JavaScript semantics are written out wherever they differ from Dafny's:
- `%` truncates toward zero (`NoteMapping.JsRem12`).
- `x || y` falls back on an empty string (`Theory.OrElse`).
- `Array.from(new Set(...))` keeps first-appearance order (`Chords.Dedupe`).
- `Array.prototype.sort` is stable (`Chords.SortByDistance`).
- `indexOf` returns -1 for an unknown name (`Notes.TextIndex`).
- The regular expression `^[A-G]#?` is modelled by `Chords.RootPrefix`.

## Model

| member | source | states |
|---|---|---|
| Notes.IndexOf | utils/musicTheory.ts:4 | each name sits at a position below 12 of the chromatic list, and the list holds that name there |
| Notes.NoteAt | utils/musicTheory.ts:4 | reading position i of the list gives the name whose position is i |
| Notes.IndexOfInjective | utils/musicTheory.ts:4 | two names share a position exactly when they are the same name |
| Notes.Transpose | utils/musicTheory.ts:79 | the note k semitones up sits at the residue of the root's position plus k, and is the root itself exactly when k is a whole number of octaves |
| Notes.Interval | utils/musicTheory.ts:110-114 | the normalised semitone difference is below 12, is the residue of the position difference, transposes the root onto the note, and is 0 exactly when the note is the root |
| Notes.IntervalOfTranspose | utils/musicTheory.ts:78-79 | transposing a root by d semitones (0 ≤ d < 12) and measuring back gives d |
| Notes.Text | types.ts:2 | the text of a name is a letter A–G, optionally followed by '#' |
| Notes.TextInjective | types.ts:2 | different names have different texts |
| Notes.TextIndex | utils/musicTheory.ts:95 | `indexOf` on a string: -1 exactly when no name is spelt that way, else the position of the name spelt so |
| Notes.TextIndexOfText | utils/musicTheory.ts:95 | looking up the text of a name finds that name's position |
| Decimal.NatToString | utils/musicTheory.ts:135 | the octave text is a non-empty run of digits without a leading zero |
| Decimal.ParseNatToString | utils/musicTheory.ts:135 | reading the octave text back yields the octave |
| Theory.NoteAtFret | utils/musicTheory.ts:9-19 | 12 × octaveShift plus the note's position equals the string's open offset plus the fret, so the note is the residue and the shift the floored quotient |
| Theory.NoteAtFretOctavePeriodic | utils/musicTheory.ts:11-13 | twelve frets higher is the same note with octaveShift one larger |
| Theory.OpenStringNotes | utils/musicTheory.ts:6-7 | the open strings 0 to 5 sound E, B, G, D, A, E |
| Theory.NoteAtFretIsTransposition | utils/musicTheory.ts:10-16 | the fretted note is the open string's note transposed up by the fret number |
| Theory.ScalePattern | utils/musicTheory.ts:21-28 | every pattern of the table is non-empty, starts at 0, and stays below 12 |
| Theory.PatternsWithinOctave | utils/musicTheory.ts:21-28 | every degree of every scale pattern is below 12 |
| Theory.PatternsWellFormed | utils/musicTheory.ts:21-28 | every pattern is non-empty, starts at 0, stays below 12 and strictly increases |
| Theory.StepwiseIsStrictlyIncreasing | utils/musicTheory.ts:21-28 | a pattern that climbs at each step climbs between any two degrees |
| Theory.ScaleNotes | utils/musicTheory.ts:74-81 | the scale has one note per pattern degree, and the i-th note lies exactly the i-th degree above the root |
| Theory.ScaleStartsAtRoot | utils/musicTheory.ts:74-81 | every scale is non-empty and begins on its root |
| Theory.ScaleMembership | utils/musicTheory.ts:74-81 | a note is in the scale if and only if its interval above the root is a degree of the pattern |
| Theory.ScaleHasNoDuplicates | utils/musicTheory.ts:74-81 | no scale lists a note twice |
| Theory.ChromaticPattern | utils/musicTheory.ts:27 | the chromatic pattern is 0, 1, …, 11 |
| Theory.ChromaticContains | utils/musicTheory.ts:74-81 | every note occurs in the chromatic scale on every root |
| Theory.ChromaticCoversAllNotesOnce | utils/musicTheory.ts:74-81 | the chromatic scale on any root has 12 notes, contains every note, and repeats none |
| Theory.ShortNamesDistinct | utils/musicTheory.ts:116-118 | the twelve short names are pairwise distinct and non-empty, none is '?', and 'R' is the name of 0 alone |
| Theory.FindShortName | utils/musicTheory.ts:116-118 | looking up the k-th short name in the table finds position k |
| Theory.OrElse | utils/musicTheory.ts:119 | `x \|\| fallback` yields x exactly when x is present and non-empty, and the fallback otherwise |
| Theory.IntervalMap | utils/musicTheory.ts:116-118 | the map has an entry exactly for 0 to 11, and the entry is that count's non-empty short name |
| Theory.IntervalName | utils/musicTheory.ts:109-120 | the name is the table entry for the normalised interval; it is 'R' if and only if the note is the root, and never '?' |
| Theory.FindString | utils/musicTheory.ts:140-154 | a table lookup by key returns the first position holding the key, or -1 exactly when the key is absent |
| Theory.SemitonesOfName | utils/musicTheory.ts:116-118 | a short name is read back to a semitone count exactly when it is one of the twelve names, and the count's table entry is that name |
| Theory.IntervalNameRoundTrip | utils/musicTheory.ts:109-120 | reading the interval name back recovers the semitone count, and transposing the root by it recovers the note |
| Theory.ScaleIntervalNames | utils/musicTheory.ts:74-120 | the i-th note of a scale is named by the short name of the pattern's i-th degree |
| Theory.FullIntervalMap | utils/musicTheory.ts:140-153 | the map has an entry exactly for the twelve short names, and the entry for the i-th short name is the i-th long name |
| Theory.FullIntervalName | utils/musicTheory.ts:138-155 | absent or empty input gives ''; each of the twelve short names gives its long name; any other string is returned unchanged |
| Theory.FullNameOfInterval | utils/musicTheory.ts:138-155 | expanding the short name of an interval gives the long name of that same interval |
| Theory.ScientificPitch | utils/musicTheory.ts:129-136 | the scientific pitch text is at least two characters long (a note name, then at least one octave digit); its exact text is stated by `Theory.ScientificPitchText` |
| Theory.ScientificPitchText | utils/musicTheory.ts:129-136 | the text is exactly the name of the note `getNoteAtFret` finds, followed by the decimal octave without leading zeros: the open string's octave plus the octave shift |
| Theory.TuningTablesAgree | utils/musicTheory.ts:129-131 | each open-string MIDI number is 12 × (octave + 1) plus the string's pitch-class offset from line 7, so `openMidi[s] % 12` is that offset |
| Theory.ScientificPitchAgreesWithNoteAtFret | utils/musicTheory.ts:129-136 | the scientific pitch of a fretted note is the note's text followed by its decimal octave, and reads back as the note `getNoteAtFret` finds, in the open string's octave plus its octave shift |
| Theory.ScientificPitchExamples | utils/musicTheory.ts:129-136 | (5, 0) is "E2", (4, 0) is "A2" and (0, 0) is "E4" |
| Chords.SoundedNotes | utils/musicTheory.ts:84-88 | one note per position, namely the note at that string and fret |
| Chords.Dedupe | utils/musicTheory.ts:84-90 | the result repeats no note, holds exactly the notes of the input, and starts with the input's first note |
| Chords.RootPrefix | utils/musicTheory.ts:93 | the pattern `^[A-G]#?` matches exactly the names starting with A–G; the match is a prefix of one or two characters, and two exactly when a '#' follows the letter |
| Chords.RootIndex | utils/musicTheory.ts:93-95 | the sort root is the prefix's position when the name has a root letter, else the first distinct note's, and -1 exactly when the prefix names no note or there is no note |
| Chords.Distance | utils/musicTheory.ts:98-103 | the sort key lies in [0, 13) and is 0 exactly at the root position |
| Chords.DistanceIsInterval | utils/musicTheory.ts:98-103 | from a real root the sort key is the interval above the root; from -1 it is the position plus one |
| Chords.DistanceInjective | utils/musicTheory.ts:98-103 | for a fixed root, different notes have different sort keys |
| Chords.Insert | utils/musicTheory.ts:98-104 | inserting into a list sorted by distance keeps it sorted and adds exactly one copy of the element |
| Chords.SortByDistance | utils/musicTheory.ts:98-104 | the sort returns a permutation of its input, sorted by distance from the root |
| Chords.SortedDistinctIsStrict | utils/musicTheory.ts:98-106 | sorting a duplicate-free list gives a duplicate-free list with the same notes, strictly ascending in distance, with the root first when present |
| Chords.PermutationKeepsDistinct | utils/musicTheory.ts:98-104 | a permutation of a duplicate-free list is duplicate-free |
| Chords.RootComesFirst | utils/musicTheory.ts:98-106 | in a list strictly ascending in distance, the root can only be first |
| Chords.ChordNotes | utils/musicTheory.ts:83-107 | the chord's notes repeat nothing, are exactly the notes sounded at its positions, strictly ascend in distance from the chord's root, and start with the root whenever it is sounded |
| Chords.RootPrefixExamples | utils/musicTheory.ts:92-93 | "Bm7b5" matches "B", "F#" matches "F#", "m7" matches nothing |
| Chords.RootIndexOfNamedRoot | utils/musicTheory.ts:93-95 | "Bm7b5" sorts from B |
| Chords.RootIndexWithoutRootLetter | utils/musicTheory.ts:94 | a name without a root letter sorts from the first distinct sounded note |
| Chords.RootIndexOfUnknownName | utils/musicTheory.ts:95 | "E#" is no note name, so the sort root position is -1 |
| Detector.HandleDetection | utils/pitchDetector.ts:296-311 | an agreeing estimate increments the count, a new one restarts it at 1 and becomes the candidate; a note is reported iff the count reaches 3 and it differs from the last report; reporting sets only the last report |
| Detector.Step | utils/pitchDetector.ts:167-189 | a stopped loop does nothing; silence clears count and candidate but keeps the last report; a rejected frame changes nothing; an estimate on a running detector goes to `handleDetection`; a report is always the tick's own estimate |
| Detector.Start | utils/pitchDetector.ts:54-128 | a running detector is left alone; otherwise acquiring the microphone runs it from cleared memory and reports listening, and failing leaves it stopped and reports error |
| Detector.Stop | utils/pitchDetector.ts:133-153 | stop clears the running flag, reports idle and changes nothing else |
| Detector.ResetTriggered | utils/pitchDetector.ts:158-162 | reset clears candidate, count and last report and keeps the running flag |
| Detector.StopIdempotent | utils/pitchDetector.ts:133-153 | stopping twice is the same as stopping once |
| Detector.RestartClears | utils/pitchDetector.ts:116-119 | stopping and then starting successfully runs the detector with no memory |
| Detector.Apply | utils/pitchDetector.ts:177-186 | only an estimated frame can report a note, and it reports that estimate |
| Detector.CooldownHolds | utils/pitchDetector.ts:307-310 | once a note has been reported and is still the candidate, any number of further estimates of it report nothing and only raise the count |
| Detector.ReportOnThirdAgreeingFrame | utils/pitchDetector.ts:299-310 | k estimates of a new note report it exactly once, on the third, and report nothing when k is below 3 |
| Detector.ReportOnceAfterStart | utils/pitchDetector.ts:73-76 | starting a stopped detector and then playing one note for k frames reports it exactly once when k ≥ 3, and never when k < 3 |
| Detector.ReportOnceAfterReset | utils/pitchDetector.ts:158-162 | after `resetTriggered` on a running detector, one note played for k frames is reported exactly once when k ≥ 3, and never when k < 3 |
| Detector.MarkerNeverReported | utils/pitchDetector.ts:35-37 | from cleared memory, estimates of MIDI -1 (the "no note" marker) are never reported, however many frames agree |
| Detector.NoRepeatWithoutReset | utils/pitchDetector.ts:307-308 | without reset or a successful start, consecutive reports differ, the first differs from the remembered note, and the memory ends on the last report |
| Detector.SameNoteReportedAtMostOnce | utils/pitchDetector.ts:182-186 | one note, played with any silences, rejections or stops between, is reported at most once, and not at all if it was already the last report |
| Detector.OnlyEstimatesReported | utils/pitchDetector.ts:177-181 | every reported note was estimated on some frame of the session |
| Detector.StoppedIgnoresFrames | utils/pitchDetector.ts:168 | a stopped detector's frames change nothing and report nothing |
| Detector.Run | utils/pitchDetector.ts:167-189 | a session yields one output per event, and a report in position i is the estimate carried by the i-th event |
| Detector.ApplyKeepsReachable | utils/pitchDetector.ts:296-311 | every event preserves the invariants "zero count means no candidate" and "a count of at least 3 means the candidate is the last report" |
| Detector.RunKeepsReachable | utils/pitchDetector.ts:296-311 | every session from a reachable state ends in a reachable state |
| Detector.InitialRunsAreReachable | utils/pitchDetector.ts:35-37 | every session from the freshly constructed detector ends in a reachable state |
| Detector.CooldownIsLastReported | utils/pitchDetector.ts:307 | in the cooldown phase the candidate is the last report, so estimating it again reports nothing |
| NoteMapping.JsRem12 | utils/pitchDetector.ts:253 | JavaScript `% 12` lies strictly between -12 and 12, takes the dividend's sign, and differs from the dividend by a multiple of 12 |
| NoteMapping.NoteIndex | utils/pitchDetector.ts:253 | `((m % 12) + 12) % 12` is in [0, 12) for every MIDI number, negative ones included, and is the mathematical residue |
| NoteMapping.MidiToPitch | utils/pitchDetector.ts:253-257 | the reported note's position is the MIDI number's residue mod 12, and its octave o satisfies 12(o + 1) ≤ midi < 12(o + 2) |
| NoteMapping.Octave | utils/pitchDetector.ts:254 | the octave o is the one with 12(o + 1) ≤ midi < 12(o + 2) |
| NoteMapping.PitchToMidiOfMidiToPitch | utils/pitchDetector.ts:252-254 | the MIDI number is recovered from the note and octave the detector reports |
| NoteMapping.MidiToPitchOfPitchToMidi | utils/pitchDetector.ts:252-254 | every note-and-octave is the detector's name for exactly its own MIDI number |
| NoteMapping.MidiToPitchInjective | utils/pitchDetector.ts:252-254 | different MIDI numbers get different names |
| NoteMapping.MidiToPitchOctavePeriodic | utils/pitchDetector.ts:252-254 | twelve semitones up is the same note one octave higher |
| NoteMapping.MidiToPitchExamples | utils/pitchDetector.ts:252-254 | 69 is A4, 57 is A3, 40 is E2, and the "no note" marker -1 would be B-2 |
| NoteMapping.MidiToPitchOfFret | utils/pitchDetector.ts:252-254 | the detector names a fretted note's MIDI number by the note `getNoteAtFret` finds, in the octave it implies |
| NoteMapping.DetectorAgreesWithFretboard | utils/musicTheory.ts:129-136 | the fretboard's scientific pitch of every fretted note reads back as the detector's name for that note's MIDI number |
| PeriodSearch.MinPeriod | utils/pitchDetector.ts:210 | the shortest lag is floor(sampleRate / 1200): 1200 times it is at most the sample rate, and 1200 times the next lag exceeds it |
| PeriodSearch.MaxPeriod | utils/pitchDetector.ts:211 | the longest lag is floor(sampleRate / 75): 75 times it is at most the sample rate, and 75 times the next lag exceeds it |
| PeriodSearch.CandidateFrequencyBounds | utils/pitchDetector.ts:209-217 | every lag p the loop visits (`IsCandidate`: between the two bounds and below the frame length) satisfies 75·p ≤ sample rate and sample rate < 1200·(p + 1) |
| PeriodSearch.ShortestLagExceedsMaxFrequency | utils/pitchDetector.ts:210-211 | at 44100 Hz the lags searched are 36 to 588, and lag 36 stands for more than 1200 Hz |
| PeriodSearch.BestPeriod | utils/pitchDetector.ts:213-240 | the search ends at correlation 0 with lag 0 exactly when no candidate correlates positively; otherwise it ends at the first candidate attaining the largest correlation |
| PeriodSearch.FirstMaximumUnique | utils/pitchDetector.ts:236-239 | at most one lag is the first attaining the maximum |
| PeriodSearch.DetectPeriod | utils/pitchDetector.ts:206-249 | an accepted frame carries the first maximising lag, which is non-zero, with confidence at least 0.9, and the lag refined as the source refines it, which is the opposite of the vertex refinement; a rejected frame has no such lag |
| PeriodSearch.ParabolaInterpolates | utils/pitchDetector.ts:281-284 | the parabola passes through the three correlations around the lag |
| PeriodSearch.ShiftAsWritten | utils/pitchDetector.ts:286-290 | the shift as computed is absent exactly when the denominator is below 1e-10 in magnitude |
| PeriodSearch.Shift | utils/pitchDetector.ts:286-290 | the corrected shift is absent under the same guard, lies where the parabola's slope vanishes, and stays within half a lag at a peak |
| PeriodSearch.PeakShiftBound | utils/pitchDetector.ts:286-290 | at a peak, the vertex lies within half a lag of the middle sample |
| PeriodSearch.ShiftMaximisesParabola | utils/pitchDetector.ts:286-290 | for a downward parabola, the corrected shift is its highest point |
| PeriodSearch.ShiftAsWrittenIsMirrored | utils/pitchDetector.ts:286-290 | the shift as computed is the exact negative of the vertex shift |
| PeriodSearch.ShiftAsWrittenMovesAwayFromPeak | utils/pitchDetector.ts:286-290 | on samples -25, -1, -9 the vertex is +1/4, the code moves -1/4, and lands lower on the parabola |
| PeriodSearch.RefineAsWritten | utils/pitchDetector.ts:267-291 | lags at most 1 or at least n - 1 are returned unchanged |
| PeriodSearch.Refine | utils/pitchDetector.ts:267-291 | the lag is unchanged at the frame's ends and under negligible curvature, and at a peak moves by at most half a lag |
| PeriodSearch.RefineAsWrittenMirrorsRefine | utils/pitchDetector.ts:286-290 | the refinement as written moves the lag by the opposite amount to the corrected one |

## Left out

- Audio plumbing is not modelled: `getUserMedia`, the Web Audio context and analyser, source-node wiring, the `requestAnimationFrame` loop, and resource release in `stop`. The running flag stands for it all, and whether the microphone was acquired is an input to `Detector.Start`.
- The concurrency of the asynchronous `start` is not modelled. Two overlapping calls could both pass the running check before either sets the flag; the model treats each start as atomic.
- Floating-point numerics are inputs, not computations:
  - the RMS gate becomes the `Silent` tick;
  - `Math.round(12·log2(f/440) + 69)` becomes the MIDI number of an `Estimate` tick;
  - the autocorrelation sums and their `sqrt` normalisation become the `corr` and `raw` sequences;
  - the frequency `sampleRate / refinedPeriod` is not computed.
- Real arithmetic on correlations is exact. Rounding of 32-bit and 64-bit floats is not modelled.
- The estimate and the report are not joined. That `detectPitch` feeding `handleDetection` re-derives the MIDI number from the frequency is not modelled; the detector takes MIDI numbers directly.
- `getFrequency` is not modelled. It is floating-point `pow` and `toFixed`.
- `COMMON_CHORDS` is not modelled. It is a data table; `Chords.ChordNotes` covers every shape, the table's included.
- `audioFeedback.ts`, the React UI, and the AI tutor service are not part of this model.
- `generateChordScaleQuestion` is not part of this model. It is imported by the app but not defined in the music-theory module.
- Notes.Transpose: takes any integer k and uses the mathematical residue. The source only adds non-negative scale degrees, where JavaScript's `%` agrees.
- Theory.NoteAtFret: requires a string index 0–5 and a non-negative fret. Every caller passes a fret of at least 0 (components/Fretboard.tsx:48, App.tsx:175). A string index outside 0–5 reads `undefined` from the offset table. A fret below minus the open offset makes the JavaScript remainder negative, so the name is usually `undefined`; when the total is a negative multiple of 12 the remainder is -0 and the name is 'C' (`getNoteAtFret(0, -16)` is C with shift -1). Frets between minus the offset and -1 work in the source (`getNoteAtFret(0, -1)` is D# with shift 0) but are outside the model.
- Theory.ScientificPitch: requires a string index 0–5 and a non-negative fret, for the same reason. Small negative frets work in the source (`getScientificPitch(0, -1)` is "D#4") but are outside the model.
- Chords.ChordNotes: requires every position to lie on strings 0–5, for the same reason; chord shapes carry non-negative frets.
- Theory.FullIntervalName, Theory.IntervalName: JavaScript object lookups also find inherited properties such as "constructor". The model's tables hold only their twelve keys.
- Detector: MIDI -1 is also the source's "no note" marker, and the model keeps that collision as written. `Detector.MarkerNeverReported` shows that -1 is then never reported, and `Detector.ReportOnceAfterStart` and `Detector.ReportOnceAfterReset` require the note to differ from -1.

Three behaviours of the code are worth stating explicitly:
- **Silence keeps the cooldown.** A silent tick clears the count and the candidate but not the last reported note (utils/pitchDetector.ts:182-186). `Detector.SameNoteReportedAtMostOnce` states the result: re-plucking the same note after silence does not report it again.
- **A rejected frame changes nothing.** When `detectPitch` returns null, `handleDetection` is not called, so the state is untouched (utils/pitchDetector.ts:178-181).
- **The frequency bounds are not exact.** The constants and comments at utils/pitchDetector.ts:47-48 describe a 75–1200 Hz search. The shortest lag is `floor(sampleRate / 1200)`, whose frequency can exceed 1200 Hz (see `PeriodSearch.CandidateFrequencyBounds` and `PeriodSearch.ShortestLagExceedsMaxFrequency`).

## Findings

| source | as written | input that shows it | evidently intended | confidence | as-written member | corrected member |
|---|---|---|---|---|---|---|
| utils/pitchDetector.ts:286-290 | shift = (y0 − y2) / (2·(2·y1 − y0 − y2)) | y0 = −25, y1 = −1, y2 = −9 (samples of −16·(t − 1/4)², peak at t = +1/4): the shift is −1/4 | the vertex of the parabola through the three samples, (y0 − y2) / (2·(y0 − 2·y1 + y2)), here +1/4; the code's value is its exact negative for every input | high; not executed | PeriodSearch.ShiftAsWrittenMovesAwayFromPeak | PeriodSearch.Shift |

`PeriodSearch.DetectPeriod` returns the refinement as written, `PeriodSearch.RefineAsWritten`. Its contract also states that this refinement moves the lag by the opposite amount to the corrected one, `PeriodSearch.Refine`. `PeriodSearch.RefineAsWrittenMirrorsRefine` proves that relation for every lag.
