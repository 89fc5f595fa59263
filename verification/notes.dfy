/**
 The twelve-name chromatic alphabet (`NoteName` and `ALL_NOTES`), shared by the
 music-theory helpers and by the pitch detector, which both declare the same
 list of names in the same order.
 */
module Notes {
  /** The twelve equal-tempered pitch classes; `Cs` is written "C#" in the source, and so on. */
  datatype NoteName = C | Cs | D | Ds | E | F | Fs | G | Gs | A | As | B

  /** A pitch class together with its octave number, as in scientific pitch notation ("A4"). */
  datatype Pitch = Pitch(note: NoteName, octave: int)

  /** The chromatic alphabet, ascending from C. */
  const AllNotes: seq<NoteName> := [C, Cs, D, Ds, E, F, Fs, G, Gs, A, As, B]

  /** The position of a name in the chromatic alphabet (`ALL_NOTES.indexOf` on a valid name). */
  function IndexOf(n: NoteName): (i: nat)
    ensures i < 12 && AllNotes[i] == n
  {
    match n
    case C => 0
    case Cs => 1
    case D => 2
    case Ds => 3
    case E => 4
    case F => 5
    case Fs => 6
    case G => 7
    case Gs => 8
    case A => 9
    case As => 10
    case B => 11
  }

  /** The name at a position of the chromatic alphabet (`ALL_NOTES[i]`). */
  function NoteAt(i: int): (n: NoteName)
    requires 0 <= i < 12
    ensures IndexOf(n) == i
  {
    AllNotes[i]
  }

  /** The alphabet lists every name exactly once, so names and positions are in one-to-one correspondence. */
  lemma IndexOfInjective(a: NoteName, b: NoteName)
    ensures IndexOf(a) == IndexOf(b) <==> a == b
  {
  }

  /** The note `k` semitones above `n`, wrapping around the octave. */
  function Transpose(n: NoteName, k: int): (r: NoteName)
    ensures IndexOf(r) == (IndexOf(n) + k) % 12
    ensures r == n <==> k % 12 == 0
  {
    NoteAt((IndexOf(n) + k) % 12)
  }

  /**
   The number of semitones, in [0, 12), from `root` up to `n`: the difference
   of positions, with 12 added when it is negative.
   */
  function Interval(root: NoteName, n: NoteName): (d: nat)
    ensures d < 12
    ensures d == (IndexOf(n) - IndexOf(root)) % 12
    ensures Transpose(root, d) == n
    ensures d == 0 <==> n == root
  {
    var diff := IndexOf(n) - IndexOf(root);
    if diff < 0 then diff + 12 else diff
  }

  /** Transposing up by `d` semitones, for `d` within one octave, lands at interval `d` from the root. */
  lemma IntervalOfTranspose(root: NoteName, d: int)
    requires 0 <= d < 12
    ensures Interval(root, Transpose(root, d)) == d
  {
    var i := IndexOf(root);
    if i + d < 12 {
      assert (i + d) % 12 == i + d;
    } else {
      assert (i + d) % 12 == i + d - 12;
      assert (i + d - 12 - i) % 12 == d;
    }
  }

  /** The text of a name as the source spells it. */
  function Text(n: NoteName): (s: string)
    ensures 1 <= |s| <= 2
    ensures 'A' <= s[0] <= 'G'
    ensures |s| == 2 ==> s[1] == '#'
  {
    match n
    case C => "C"
    case Cs => "C#"
    case D => "D"
    case Ds => "D#"
    case E => "E"
    case F => "F"
    case Fs => "F#"
    case G => "G"
    case Gs => "G#"
    case A => "A"
    case As => "A#"
    case B => "B"
  }

  /** Distinct names have distinct texts. */
  lemma TextInjective(a: NoteName, b: NoteName)
    ensures Text(a) == Text(b) ==> a == b
  {
  }

  /** `ALL_NOTES.indexOf(s)` for an arbitrary string: the position of the name spelt `s`, or -1. */
  function TextIndex(s: string): (i: int)
    ensures -1 <= i < 12
    ensures 0 <= i ==> Text(AllNotes[i]) == s
    ensures i == -1 <==> forall n: NoteName :: Text(n) != s
  {
    TextIndexFrom(s, 0)
  }

  /** Search for the text `s` among the names at positions `k` and above. */
  function TextIndexFrom(s: string, k: nat): (i: int)
    requires k <= 12
    ensures i == -1 || k <= i < 12
    ensures 0 <= i ==> Text(AllNotes[i]) == s && forall j :: k <= j < i ==> Text(AllNotes[j]) != s
    ensures i == -1 <==> forall j :: k <= j < 12 ==> Text(AllNotes[j]) != s
    decreases 12 - k
  {
    if k == 12 then -1
    else if Text(AllNotes[k]) == s then k
    else TextIndexFrom(s, k + 1)
  }

  /** Reading back the text of a name finds that name. */
  lemma TextIndexOfText(n: NoteName)
    ensures TextIndex(Text(n)) == IndexOf(n)
  {
    var i := TextIndex(Text(n));
    TextInjective(AllNotes[i], n);
  }
}
