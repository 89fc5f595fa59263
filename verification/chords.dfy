/**
 Chord spelling: the distinct notes a chord shape sounds, ordered upward from
 the chord's root.
 */
module Chords {
  import opened Options
  import opened Notes
  import Theory

  datatype ChordCategory = AllChords | Triad | Seventh | SusDimAug

  /** One fretted or open string of a chord shape; `finger` is absent for an open string. */
  datatype FingerPosition = FingerPosition(stringIndex: int, fret: nat, finger: Option<nat>)

  /** A chord diagram: its name ("Bm7b5"), category, popularity score, fretted positions and muted strings. */
  datatype ChordShape = ChordShape(
    name: string,
    category: ChordCategory,
    popularity: int,
    notes: seq<FingerPosition>,
    mutedStrings: seq<int>)

  /** Every position lies on one of the six strings. */
  predicate PlayablePositions(ps: seq<FingerPosition>)
  {
    forall i :: 0 <= i < |ps| ==> 0 <= ps[i].stringIndex < Theory.StringCount
  }

  predicate NoDuplicates(s: seq<NoteName>)
  {
    forall i, j :: 0 <= i < j < |s| ==> s[i] != s[j]
  }

  /** The note sounded at each position, in the order the shape lists them. */
  function SoundedNotes(ps: seq<FingerPosition>): (r: seq<NoteName>)
    requires PlayablePositions(ps)
    ensures |r| == |ps|
    ensures forall i :: 0 <= i < |ps| ==> r[i] == Theory.NoteAtFret(ps[i].stringIndex, ps[i].fret).note
  {
    seq(|ps|, i requires 0 <= i < |ps| => Theory.NoteAtFret(ps[i].stringIndex, ps[i].fret).note)
  }

  /**
   The distinct notes of `s` in order of first appearance, as collecting them
   into a JavaScript `Set` and reading it back does.
   */
  function Dedupe(s: seq<NoteName>): (r: seq<NoteName>)
    ensures NoDuplicates(r)
    ensures forall n :: n in r <==> n in s
    ensures |s| > 0 ==> |r| > 0 && r[0] == s[0]
    decreases |s|
  {
    if |s| == 0 then []
    else
      var d := Dedupe(s[..|s| - 1]);
      if s[|s| - 1] in d then d else d + [s[|s| - 1]]
  }

  /** The match of the pattern `^[A-G]#?` against a chord name: a letter A to G, and a sharp sign after it if there is one. */
  function RootPrefix(name: string): (r: Option<string>)
    ensures r.Some? <==> |name| > 0 && 'A' <= name[0] <= 'G'
    ensures r.Some? ==> 1 <= |r.value| <= 2 && r.value <= name
    ensures r.Some? ==> (|r.value| == 2 <==> |name| >= 2 && name[1] == '#')
  {
    if |name| == 0 || !('A' <= name[0] <= 'G') then None
    else if |name| >= 2 && name[1] == '#' then Some(name[..2])
    else Some(name[..1])
  }

  /**
   The position in the chromatic alphabet of the note the chord is sorted
   from: the name's root prefix when it has one, else the first distinct
   sounded note; -1 when that is not a note name ("E#", "B#") or there is no
   note at all.
   */
  function RootIndex(name: string, unique: seq<NoteName>): (i: int)
    ensures -1 <= i < 12
    ensures RootPrefix(name).None? && |unique| > 0 ==> i == IndexOf(unique[0])
    ensures RootPrefix(name).None? && |unique| == 0 ==> i == -1
    ensures RootPrefix(name).Some? && i >= 0 ==> Text(AllNotes[i]) == RootPrefix(name).value
    ensures RootPrefix(name).Some? ==> (i == -1 <==> forall n: NoteName :: Text(n) != RootPrefix(name).value)
  {
    match RootPrefix(name)
    case Some(p) => TextIndex(p)
    case None => if |unique| > 0 then IndexOf(unique[0]) else -1
  }

  /** Semitones from the root position up to `n`: the difference of positions, with 12 added when negative. */
  function Distance(n: NoteName, rootIndex: int): (d: int)
    requires -1 <= rootIndex < 12
    ensures 0 <= d < 13
    ensures d == 0 <==> IndexOf(n) == rootIndex
  {
    var d := IndexOf(n) - rootIndex;
    if d < 0 then d + 12 else d
  }

  /** From a real root, the distance is the interval above the root note; from -1 it is the position plus one. */
  lemma DistanceIsInterval(n: NoteName, rootIndex: int)
    requires -1 <= rootIndex < 12
    ensures 0 <= rootIndex ==> Distance(n, rootIndex) == Interval(AllNotes[rootIndex], n)
    ensures rootIndex == -1 ==> Distance(n, rootIndex) == IndexOf(n) + 1
  {
    if 0 <= rootIndex {
      assert IndexOf(AllNotes[rootIndex]) == rootIndex by {
        assert AllNotes[rootIndex] == NoteAt(rootIndex);
      }
    }
  }

  /** For a fixed root position, distinct notes lie at distinct distances. */
  lemma DistanceInjective(a: NoteName, b: NoteName, rootIndex: int)
    requires -1 <= rootIndex < 12
    ensures Distance(a, rootIndex) == Distance(b, rootIndex) ==> a == b
  {
    IndexOfInjective(a, b);
  }

  predicate SortedByDistance(s: seq<NoteName>, rootIndex: int)
    requires -1 <= rootIndex < 12
  {
    forall i, j :: 0 <= i < j < |s| ==> Distance(s[i], rootIndex) <= Distance(s[j], rootIndex)
  }

  /** Inserts `x` into a sorted list after every element not farther from the root than `x`. */
  function Insert(x: NoteName, s: seq<NoteName>, rootIndex: int): (r: seq<NoteName>)
    requires -1 <= rootIndex < 12
    requires SortedByDistance(s, rootIndex)
    ensures multiset(r) == multiset(s) + multiset{x}
    ensures SortedByDistance(r, rootIndex)
    decreases |s|
  {
    if |s| == 0 then [x]
    else
      SortedTail(s, rootIndex);
      if Distance(s[0], rootIndex) <= Distance(x, rootIndex) then
        var rest := Insert(x, s[1..], rootIndex);
        InsertBehindHead(x, s, rest, rootIndex);
        [s[0]] + rest
      else
        ConsSorted(x, s, rootIndex);
        [x] + s
  }

  /** The tail of a sorted list is sorted, and its head is no farther from the root than any element. */
  lemma SortedTail(s: seq<NoteName>, rootIndex: int)
    requires -1 <= rootIndex < 12
    requires SortedByDistance(s, rootIndex) && |s| > 0
    ensures SortedByDistance(s[1..], rootIndex)
    ensures forall k :: 0 <= k < |s| ==> Distance(s[0], rootIndex) <= Distance(s[k], rootIndex)
  {
    forall i, j | 0 <= i < j < |s[1..]|
      ensures Distance(s[1..][i], rootIndex) <= Distance(s[1..][j], rootIndex)
    {
      assert s[1..][i] == s[i + 1] && s[1..][j] == s[j + 1];
    }
  }

  /** Keeping the head of a sorted list in front of the insertion into its tail gives the insertion into the whole list. */
  lemma InsertBehindHead(x: NoteName, s: seq<NoteName>, rest: seq<NoteName>, rootIndex: int)
    requires -1 <= rootIndex < 12
    requires |s| > 0
    requires SortedByDistance(rest, rootIndex)
    requires multiset(rest) == multiset(s[1..]) + multiset{x}
    requires Distance(s[0], rootIndex) <= Distance(x, rootIndex)
    requires forall k :: 0 <= k < |s| ==> Distance(s[0], rootIndex) <= Distance(s[k], rootIndex)
    ensures multiset([s[0]] + rest) == multiset(s) + multiset{x}
    ensures SortedByDistance([s[0]] + rest, rootIndex)
  {
    assert s == [s[0]] + s[1..];
    assert forall k :: 0 <= k < |s[1..]| ==> Distance(s[0], rootIndex) <= Distance(s[1..][k], rootIndex) by {
      forall k | 0 <= k < |s[1..]|
        ensures Distance(s[0], rootIndex) <= Distance(s[1..][k], rootIndex)
      {
        assert s[1..][k] == s[k + 1];
      }
    }
    BoundThroughMultiset(s[0], x, s[1..], rest, rootIndex);
    ConsSorted(s[0], rest, rootIndex);
  }

  /** Putting `y` in front of a sorted list keeps it sorted when `y` is no farther from the root than any element. */
  lemma ConsSorted(y: NoteName, rest: seq<NoteName>, rootIndex: int)
    requires -1 <= rootIndex < 12
    requires SortedByDistance(rest, rootIndex)
    requires forall k :: 0 <= k < |rest| ==> Distance(y, rootIndex) <= Distance(rest[k], rootIndex)
    ensures SortedByDistance([y] + rest, rootIndex)
  {
    var r := [y] + rest;
    forall i, j | 0 <= i < j < |r|
      ensures Distance(r[i], rootIndex) <= Distance(r[j], rootIndex)
    {
      assert r[j] == rest[j - 1];
      if i > 0 {
        assert r[i] == rest[i - 1];
      }
    }
  }

  /** A lower bound on the elements of `s` and on `x` bounds every element of a list holding exactly them. */
  lemma BoundThroughMultiset(y: NoteName, x: NoteName, s: seq<NoteName>, rest: seq<NoteName>, rootIndex: int)
    requires -1 <= rootIndex < 12
    requires multiset(rest) == multiset(s) + multiset{x}
    requires Distance(y, rootIndex) <= Distance(x, rootIndex)
    requires forall k :: 0 <= k < |s| ==> Distance(y, rootIndex) <= Distance(s[k], rootIndex)
    ensures forall k :: 0 <= k < |rest| ==> Distance(y, rootIndex) <= Distance(rest[k], rootIndex)
  {
    forall k | 0 <= k < |rest|
      ensures Distance(y, rootIndex) <= Distance(rest[k], rootIndex)
    {
      assert rest[k] in multiset(rest);
      if rest[k] != x {
        assert rest[k] in multiset(s);
        assert rest[k] in s;
      }
    }
  }

  /** A stable sort by distance from the root (ECMAScript's `Array.prototype.sort` is stable). */
  function SortByDistance(s: seq<NoteName>, rootIndex: int): (r: seq<NoteName>)
    requires -1 <= rootIndex < 12
    ensures multiset(r) == multiset(s)
    ensures SortedByDistance(r, rootIndex)
    decreases |s|
  {
    if |s| == 0 then []
    else
      assert s == s[..|s| - 1] + [s[|s| - 1]];
      Insert(s[|s| - 1], SortByDistance(s[..|s| - 1], rootIndex), rootIndex)
  }

  /**
   The distinct notes a chord shape sounds, sorted upward from the chord's
   root: no note twice, exactly the notes at the shape's positions, strictly
   ascending in distance from the root, and the root first whenever it is
   sounded.
   */
  function ChordNotes(chord: ChordShape): (r: seq<NoteName>)
    requires PlayablePositions(chord.notes)
    ensures NoDuplicates(r)
    ensures forall n :: n in r <==> n in SoundedNotes(chord.notes)
    ensures forall i, j :: 0 <= i < j < |r| ==> Distance(r[i], ChordRootIndex(chord)) < Distance(r[j], ChordRootIndex(chord))
    ensures 0 <= ChordRootIndex(chord) && AllNotes[ChordRootIndex(chord)] in r ==> r[0] == AllNotes[ChordRootIndex(chord)]
  {
    var unique := Dedupe(SoundedNotes(chord.notes));
    var rootIndex := RootIndex(chord.name, unique);
    var r := SortByDistance(unique, rootIndex);
    SortedDistinctIsStrict(unique, r, rootIndex);
    r
  }

  /** The root position a chord is sorted from. */
  function ChordRootIndex(chord: ChordShape): (i: int)
    requires PlayablePositions(chord.notes)
    ensures -1 <= i < 12
  {
    RootIndex(chord.name, Dedupe(SoundedNotes(chord.notes)))
  }

  /**
   Sorting a duplicate-free list by distance gives a duplicate-free list with
   the same notes, strictly ascending in distance, that starts with the root
   when the root is present.
   */
  lemma SortedDistinctIsStrict(unique: seq<NoteName>, r: seq<NoteName>, rootIndex: int)
    requires -1 <= rootIndex < 12
    requires NoDuplicates(unique)
    requires r == SortByDistance(unique, rootIndex)
    ensures NoDuplicates(r)
    ensures forall n :: n in r <==> n in unique
    ensures forall i, j :: 0 <= i < j < |r| ==> Distance(r[i], rootIndex) < Distance(r[j], rootIndex)
    ensures 0 <= rootIndex && AllNotes[rootIndex] in r ==> r[0] == AllNotes[rootIndex]
  {
    SameMembers(unique, r);
    PermutationKeepsDistinct(unique, r);
    DistinctSortedIsStrict(r, rootIndex);
    if 0 <= rootIndex && AllNotes[rootIndex] in r {
      RootComesFirst(r, rootIndex);
    }
  }

  /** Lists holding the same notes the same number of times hold the same notes. */
  lemma SameMembers(a: seq<NoteName>, b: seq<NoteName>)
    requires multiset(a) == multiset(b)
    ensures forall n :: n in a <==> n in b
  {
    forall n
      ensures n in a <==> n in b
    {
      assert n in a <==> n in multiset(a);
      assert n in b <==> n in multiset(b);
    }
  }

  /** A rearrangement of a duplicate-free list is duplicate-free. */
  lemma PermutationKeepsDistinct(a: seq<NoteName>, b: seq<NoteName>)
    requires NoDuplicates(a)
    requires multiset(a) == multiset(b)
    ensures NoDuplicates(b)
  {
    forall i, j | 0 <= i < j < |b|
      ensures b[i] != b[j]
    {
      if b[i] == b[j] {
        CountAtLeastTwo(b, i, j);
        DistinctCountAtMostOne(a, b[i]);
        assert false;
      }
    }
  }

  /** A duplicate-free list sorted by distance is strictly ascending in distance. */
  lemma DistinctSortedIsStrict(r: seq<NoteName>, rootIndex: int)
    requires -1 <= rootIndex < 12
    requires NoDuplicates(r)
    requires SortedByDistance(r, rootIndex)
    ensures forall i, j :: 0 <= i < j < |r| ==> Distance(r[i], rootIndex) < Distance(r[j], rootIndex)
  {
    forall i, j | 0 <= i < j < |r|
      ensures Distance(r[i], rootIndex) < Distance(r[j], rootIndex)
    {
      DistanceInjective(r[i], r[j], rootIndex);
    }
  }

  /** In a list strictly ascending in distance, the root, at distance 0, can only come first. */
  lemma RootComesFirst(r: seq<NoteName>, rootIndex: int)
    requires 0 <= rootIndex < 12
    requires forall i, j :: 0 <= i < j < |r| ==> Distance(r[i], rootIndex) < Distance(r[j], rootIndex)
    requires AllNotes[rootIndex] in r
    ensures r[0] == AllNotes[rootIndex]
  {
    var k :| 0 <= k < |r| && r[k] == AllNotes[rootIndex];
    if k > 0 {
      assert Distance(r[0], rootIndex) < Distance(r[k], rootIndex);
    }
  }

  /** A list without repetitions holds each note at most once. */
  lemma {:induction false} DistinctCountAtMostOne(s: seq<NoteName>, n: NoteName)
    requires NoDuplicates(s)
    ensures multiset(s)[n] <= 1
    decreases |s|
  {
    if |s| > 0 {
      assert s == [s[0]] + s[1..];
      DistinctCountAtMostOne(s[1..], n);
      if s[0] == n {
        assert n !in s[1..];
      }
    }
  }

  /** Two positions holding the same note make it occur at least twice. */
  lemma CountAtLeastTwo(s: seq<NoteName>, i: int, j: int)
    requires 0 <= i < j < |s| && s[i] == s[j]
    ensures multiset(s)[s[i]] >= 2
  {
    assert s == s[..i] + [s[i]] + s[i + 1..j] + [s[j]] + s[j + 1..];
  }

  /** The root prefix of a chord name: a plain letter, a letter with its sharp, or nothing. */
  lemma RootPrefixExamples()
    ensures RootPrefix("Bm7b5") == Some("B")
    ensures RootPrefix("F#") == Some("F#")
    ensures RootPrefix("m7") == None
  {
    assert "Bm7b5"[..1] == "B";
    assert "F#"[..2] == "F#";
  }

  /** "Bm7b5" sorts from B, the letter its name starts with. */
  lemma RootIndexOfNamedRoot()
    ensures RootIndex("Bm7b5", [D, F, A, B]) == 11
  {
    RootPrefixExamples();
    TextIndexOfText(B);
  }

  /** A name without a root letter sorts from the first sounded note. */
  lemma RootIndexWithoutRootLetter()
    ensures RootIndex("m7", [D, A]) == 2
  {
    RootPrefixExamples();
  }

  /** "E#" is not one of the twelve names, so the root position is -1. */
  lemma RootIndexOfUnknownName()
    ensures RootIndex("E#", [F, A, C]) == -1
  {
    assert RootPrefix("E#") == Some("E#") by {
      assert "E#"[..2] == "E#";
    }
    forall n: NoteName
      ensures Text(n) != "E#"
    {
    }
  }
}
