/** The key-signature manager: a root pitch class, a major or minor scale type and
    a filter mode (Highlight or Lock), with the seven in-key pitch classes derived
    from them. */
module KeySignature {
  import opened CppArith

  /** Semitone offsets of the major (W-W-H-W-W-W-H) and natural minor (W-H-W-W-H-W-W) scales. */
  const MajorScale: seq<int> := [0, 2, 4, 5, 7, 9, 11]
  const MinorScale: seq<int> := [0, 2, 3, 5, 7, 8, 10]

  /** Scale type 0 selects the major pattern; every other value selects minor. */
  function ScalePattern(scaleType: int): seq<int> {
    if scaleType == 0 then MajorScale else MinorScale
  }

  /** A scale pattern: seven strictly increasing semitone offsets within one octave, from 0. */
  ghost predicate IsPattern(p: seq<int>) {
    && |p| == 7
    && p[0] == 0
    && (forall i :: 0 <= i < |p| ==> 0 <= p[i] < 12)
    && (forall i, j :: 0 <= i < j < |p| ==> p[i] < p[j])
  }

  lemma PatternsWellFormed(scaleType: int)
    ensures IsPattern(MajorScale) && IsPattern(MinorScale)
    ensures IsPattern(ScalePattern(scaleType))
  {
  }

  /** C major holds C (60) but not C# (61); so in Lock mode a C can be switched on and
      a C# cannot. */
  lemma CMajorExample()
    ensures ScaleOf(0, 0) == MajorScale
    ensures InKey(ScaleOf(0, 0), 60) && !InKey(ScaleOf(0, 0), 61)
  {
    assert ScaleOf(0, 0)[0] == 0;
  }

  /** The pitch classes of the scale on `root`: each offset of the pattern added to
      the root, reduced modulo 12 with C++ `%`. */
  function ScaleOf(root: int, scaleType: int): (scale: seq<int>)
    ensures |scale| == |ScalePattern(scaleType)|
  {
    var p := ScalePattern(scaleType);
    seq(|p|, i requires 0 <= i < |p| => CppRem(root + p[i], 12))
  }

  ghost predicate Distinct(s: seq<int>) {
    forall i, j :: 0 <= i < j < |s| ==> s[i] != s[j]
  }

  /** For a valid root the scale holds seven distinct pitch classes, and its first is the root. */
  lemma ScaleWellFormed(root: int, scaleType: int)
    requires 0 <= root < 12
    ensures |ScaleOf(root, scaleType)| == 7
    ensures ScaleOf(root, scaleType)[0] == root
    ensures forall i :: 0 <= i < 7 ==> 0 <= ScaleOf(root, scaleType)[i] < 12
    ensures Distinct(ScaleOf(root, scaleType))
  {
    var s := ScaleOf(root, scaleType);
    PatternsWellFormed(scaleType);
    forall i, j | 0 <= i < j < |s| ensures s[i] != s[j] {
      ScaleEntriesDiffer(root, scaleType, i, j);
    }
  }

  /** Two offsets of a pattern give two different pitch classes. */
  lemma ScaleEntriesDiffer(root: int, scaleType: int, i: int, j: int)
    requires 0 <= root < 12 && 0 <= i < j < 7
    ensures ScaleOf(root, scaleType)[i] != ScaleOf(root, scaleType)[j]
  {
    var p := ScalePattern(scaleType);
    PatternsWellFormed(scaleType);
    ShiftedClassesDiffer(root, p[i], p[j]);
  }

  lemma ShiftedClassesDiffer(root: int, x: int, y: int)
    requires 0 <= root < 12 && 0 <= x < y < 12
    ensures CppRem(root + x, 12) != CppRem(root + y, 12)
  {
  }

  /** A MIDI note is in key when its C++ remainder modulo 12 is one of the scale's pitch classes. */
  predicate InKey(scale: seq<int>, midiNote: int) {
    CppRem(midiNote, 12) in scale
  }

  /** Non-negative notes an octave apart are in key together. */
  lemma InKeyPeriodic(scale: seq<int>, midiNote: int)
    requires midiNote >= 0
    ensures InKey(scale, midiNote + 12) == InKey(scale, midiNote)
  {
  }

  /** The root and every octave above it are in key. */
  lemma {:induction false} RootOctavesInKey(root: int, scaleType: int, k: nat)
    requires 0 <= root < 12
    ensures InKey(ScaleOf(root, scaleType), root + 12 * k)
  {
    ScaleWellFormed(root, scaleType);
    if k == 0 {
      assert ScaleOf(root, scaleType)[0] == root;
    } else {
      RootOctavesInKey(root, scaleType, k - 1);
      InKeyPeriodic(ScaleOf(root, scaleType), root + 12 * (k - 1));
    }
  }

  /** A negative note has a non-positive C++ remainder, so it is in key only when it is
      a multiple of 12 (remainder 0) and pitch class 0 is in the scale. */
  lemma NegativeNotesInKey(root: int, scaleType: int, midiNote: int)
    requires 0 <= root < 12
    requires midiNote < 0
    ensures InKey(ScaleOf(root, scaleType), midiNote) <==> midiNote % 12 == 0 && 0 in ScaleOf(root, scaleType)
  {
    ScaleWellFormed(root, scaleType);
    var s := ScaleOf(root, scaleType);
    var r := CppRem(midiNote, 12);
    if r in s {
      var i :| 0 <= i < |s| && s[i] == r;
      assert r == 0;
    }
  }

  /** The pitch classes of one octave that are in key. */
  function InKeyClasses(scale: seq<int>): set<int> {
    set pc | 0 <= pc < 12 && InKey(scale, pc)
  }

  lemma {:induction false} DistinctCard(s: seq<int>)
    requires Distinct(s)
    ensures |set x | x in s| == |s|
  {
    if s != [] {
      var t := s[..|s| - 1];
      assert Distinct(t);
      DistinctCard(t);
      assert (set x | x in s) == (set x | x in t) + {s[|s| - 1]};
      assert s[|s| - 1] !in t;
    }
  }

  /** Exactly seven of the twelve pitch classes are in key, for every valid root and scale type. */
  lemma SevenClassesInKey(root: int, scaleType: int)
    requires 0 <= root < 12
    ensures |InKeyClasses(ScaleOf(root, scaleType))| == 7
  {
    var s := ScaleOf(root, scaleType);
    ScaleWellFormed(root, scaleType);
    assert InKeyClasses(s) == set x | x in s;
    DistinctCard(s);
  }

  /** How a note is shown: bright cyan in key; out of key, dimmed magenta in Highlight
      mode and grey otherwise. */
  datatype NoteColour = InKeyCyan | OutOfKeyMagenta | OutOfKeyGrey {
    /** The ARGB value the source paints with. */
    function Argb(): bv32 {
      match this
      case InKeyCyan => 0xFF00FFFF
      case OutOfKeyMagenta => 0x80FF00FF
      case OutOfKeyGrey => 0x40808080
    }
  }

  class KeySignatureManager {
    var rootNote: int
    var scaleType: int
    var filterMode: int
    var currentScale: seq<int>

    /** Settings in range, and the scale derived from them. */
    ghost predicate Valid()
      reads this
    {
      && 0 <= rootNote < 12
      && 0 <= scaleType <= 1
      && 0 <= filterMode <= 1
      && currentScale == ScaleOf(rootNote, scaleType)
    }

    /** A fresh manager is C major in Highlight mode. */
    constructor ()
      ensures Valid()
      ensures rootNote == 0 && scaleType == 0 && filterMode == 0
      ensures currentScale == MajorScale
    {
      rootNote, scaleType, filterMode := 0, 0, 0;
      currentScale := [];
      new;
      UpdateCurrentScale();
    }

    function GetRootNote(): int reads this { rootNote }
    function GetScaleType(): int reads this { scaleType }
    function GetFilterMode(): int reads this { filterMode }

    /** Accepts roots 0..11 that differ from the current one, then rederives the scale. */
    method SetRootNote(newRootNote: int)
      requires Valid()
      modifies this`rootNote, this`currentScale
      ensures Valid()
      ensures rootNote == if newRootNote != old(rootNote) && 0 <= newRootNote < 12 then newRootNote else old(rootNote)
      ensures rootNote == old(rootNote) ==> currentScale == old(currentScale)
      ensures scaleType == old(scaleType) && filterMode == old(filterMode)
    {
      if newRootNote != rootNote && newRootNote >= 0 && newRootNote < 12 {
        rootNote := newRootNote;
        UpdateCurrentScale();
      }
    }

    /** Accepts 0 (major) or 1 (minor) when it differs from the current type, then rederives the scale. */
    method SetScaleType(newScaleType: int)
      requires Valid()
      modifies this`scaleType, this`currentScale
      ensures Valid()
      ensures scaleType == if newScaleType != old(scaleType) && 0 <= newScaleType <= 1 then newScaleType else old(scaleType)
      ensures scaleType == old(scaleType) ==> currentScale == old(currentScale)
      ensures rootNote == old(rootNote) && filterMode == old(filterMode)
    {
      if newScaleType != scaleType && newScaleType >= 0 && newScaleType <= 1 {
        scaleType := newScaleType;
        UpdateCurrentScale();
      }
    }

    /** Accepts 0 (Highlight) or 1 (Lock); never touches the scale. */
    method SetFilterMode(mode: int)
      requires Valid()
      modifies this`filterMode
      ensures Valid()
      ensures filterMode == if 0 <= mode <= 1 then mode else old(filterMode)
      ensures rootNote == old(rootNote) && scaleType == old(scaleType) && currentScale == old(currentScale)
    {
      if mode != filterMode && mode >= 0 && mode <= 1 {
        filterMode := mode;
      }
    }

    /** Clears the scale and appends one pitch class per offset of the selected pattern. */
    method UpdateCurrentScale()
      modifies this`currentScale
      ensures currentScale == ScaleOf(rootNote, scaleType)
    {
      currentScale := [];
      var pattern := if scaleType == 0 then MajorScale else MinorScale;
      for i := 0 to |pattern|
        invariant |currentScale| == i
        invariant forall j :: 0 <= j < i ==> currentScale[j] == CppRem(rootNote + pattern[j], 12)
      {
        currentScale := currentScale + [CppRem(rootNote + pattern[i], 12)];
      }
    }

    /** Searches the current scale for the note's C++ remainder modulo 12. */
    method IsNoteInKey(midiNote: int) returns (found: bool)
      ensures found <==> CppRem(midiNote, 12) in currentScale
    {
      var noteInOctave := CppRem(midiNote, 12);
      for i := 0 to |currentScale|
        invariant noteInOctave !in currentScale[..i]
      {
        if currentScale[i] == noteInOctave {
          return true;
        }
      }
      return false;
    }

    /** The colour class of a note: in-key exactly when the note is in key, and for
        out-of-key notes decided by the filter mode alone. */
    function GetNoteColor(midiNote: int): (c: NoteColour)
      reads this
      ensures c == InKeyCyan <==> InKey(currentScale, midiNote)
      ensures !InKey(currentScale, midiNote) ==> c == (if filterMode == 0 then OutOfKeyMagenta else OutOfKeyGrey)
    {
      if InKey(currentScale, midiNote) then InKeyCyan
      else if filterMode == 0 then OutOfKeyMagenta else OutOfKeyGrey
    }
  }
}
