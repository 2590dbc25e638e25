/**
 * The pitch resolver: a staff letter read under a clef becomes a MIDI pitch
 * number. The staff is a seven-step diatonic ladder anchored at the clef's
 * line: every letter is one staff step, seven steps make an octave of twelve
 * semitones, and the two `cb` clefs use a scale with a lowered seventh.
 */
module Pitch {
  import opened Wrappers

  /** The clefs the resolver knows, one per key of its clef-position table. */
  datatype Clef = C1 | C2 | C3 | CB3 | C4 | CB4 | F3 | F4

  /** A lower-case staff letter. */
  type Letter = c: char | 'a' <= c <= 'm' witness 'a'

  /** Staff step of each letter; `d` is the lowest line. */
  const Positions: map<char, int> :=
    map['a' := -3, 'b' := -2, 'c' := -1, 'd' := 0, 'e' := 1, 'f' := 2, 'g' := 3,
        'h' := 4, 'i' := 5, 'j' := 6, 'k' := 7, 'l' := 8, 'm' := 9]

  /** Pitch of the clef's own line for the two clefs that do not use the default 60. */
  const TonicPerClef: map<Clef, int> := map[C4 := 72, C3 := 72]

  const DiatonicScale: seq<int> := [0, 2, 4, 5, 7, 9, 11]
  const LoweredSeventhScale: seq<int> := [0, 2, 4, 5, 7, 9, 10]

  /** Seven degrees starting at the tonic, strictly rising, all within one octave. */
  predicate ValidScale(s: seq<int>) {
    && |s| == 7
    && s[0] == 0
    && s[0] < s[1] && s[1] < s[2] && s[2] < s[3] && s[3] < s[4] && s[4] < s[5] && s[5] < s[6]
    && s[6] < 12
  }

  /** Staff step of a letter, relative to the lowest line: consecutive letters are one step apart. */
  function StaffStep(p: Letter): (step: int)
    ensures -3 <= step <= 9
  {
    p as int - 'd' as int
  }

  /** Staff step of the line the clef sits on. */
  function ClefLine(clef: Clef): (line: int)
    ensures 0 <= line <= 6
  {
    match clef
    case C1 => 0
    case C2 => 2
    case C3 => 4
    case CB3 => 4
    case C4 => 6
    case CB4 => 6
    case F3 => 1
    case F4 => 3
  }

  predicate IsFlatClef(clef: Clef) {
    clef == CB3 || clef == CB4
  }

  /** Semitone offsets of the seven degrees above the tonic. */
  function Scale(clef: Clef): (s: seq<int>)
    ensures ValidScale(s)
  {
    if IsFlatClef(clef) then LoweredSeventhScale else DiatonicScale
  }

  /** Pitch of the clef line when the caller gives none: 72 for `c3`/`c4`, otherwise 60. */
  function DefaultTonic(clef: Clef): (t: int)
    ensures t == (if clef in TonicPerClef then TonicPerClef[clef] else 60)
  {
    match clef
    case C3 => 72
    case C4 => 72
    case _ => 60
  }

  /** Pitch `rel` staff steps above (or below, when negative) a tonic, on the given scale. */
  function ScalePitch(tonic: int, scale: seq<int>, rel: int): int
    requires |scale| == 7
  {
    tonic + (rel / 7) * 12 + scale[rel % 7]
  }

  /**
   * The source's `position_to_midi(position, clef, C)`: `tonic` is the
   * optional `C` override.
   */
  function PositionToMidi(p: Letter, clef: Clef, tonic: Option<int>): (r: int)
    ensures StaffStep(p) == ClefLine(clef) ==> r == tonic.GetOr(DefaultTonic(clef))
  {
    ScalePitch(tonic.GetOr(DefaultTonic(clef)), Scale(clef), StaffStep(p) - ClefLine(clef))
  }

  /**
   * Pitch as the encoder asks for it: no tonic override, which is the same as
   * passing the clef's default tonic explicitly.
   */
  function Midi(p: Letter, clef: Clef): (r: int)
    ensures r == PositionToMidi(p, clef, Some(DefaultTonic(clef)))
  {
    PositionToMidi(p, clef, None)
  }

  /** Semitones from degree `d` to the next staff step up. */
  function Interval(s: seq<int>, d: int): (n: int)
    requires ValidScale(s)
    requires 0 <= d < 7
    ensures n > 0
  {
    if d < 6 then s[d + 1] - s[d] else 12 - s[6]
  }

  /**
   * Reference definition of the staff as a ladder: walk from the clef line
   * one staff step at a time, adding (going up) or subtracting (going down)
   * the interval between neighbouring degrees.
   */
  function Ladder(tonic: int, s: seq<int>, rel: int): int
    requires ValidScale(s)
    decreases if rel >= 0 then rel else -rel
  {
    if rel == 0 then tonic
    else if rel > 0 then Ladder(tonic, s, rel - 1) + Interval(s, (rel - 1) % 7)
    else Ladder(tonic, s, rel + 1) - Interval(s, rel % 7)
  }

  /** The letter on the clef's own line. */
  function ClefLetter(clef: Clef): (p: Letter)
    ensures StaffStep(p) == ClefLine(clef)
  {
    match clef
    case C1 => 'd'
    case C2 => 'f'
    case C3 => 'h'
    case CB3 => 'h'
    case C4 => 'j'
    case CB4 => 'j'
    case F3 => 'e'
    case F4 => 'g'
  }

  /** The letter distance agrees with the resolver's written-out letter table, which covers exactly `a`..`m`. */
  lemma StaffStepMatchesPositions(p: Letter)
    ensures p in Positions && StaffStep(p) == Positions[p]
    ensures forall c :: c in Positions ==> 'a' <= c <= 'm'
  {
  }

  /** One staff step up adds the interval of the degree the step starts from. */
  lemma ScalePitchStep(tonic: int, s: seq<int>, rel: int)
    requires ValidScale(s)
    ensures ScalePitch(tonic, s, rel + 1) == ScalePitch(tonic, s, rel) + Interval(s, rel % 7)
  {
    if rel % 7 == 6 {
      assert (rel + 1) / 7 == rel / 7 + 1 && (rel + 1) % 7 == 0;
    } else {
      assert (rel + 1) / 7 == rel / 7 && (rel + 1) % 7 == rel % 7 + 1;
    }
  }

  lemma {:induction false} LadderAbove(tonic: int, s: seq<int>, rel: nat)
    requires ValidScale(s)
    ensures ScalePitch(tonic, s, rel) == Ladder(tonic, s, rel)
  {
    if rel > 0 {
      LadderAbove(tonic, s, rel - 1);
      ScalePitchStep(tonic, s, rel - 1);
      var below := ScalePitch(tonic, s, rel - 1);
      var d := (rel - 1) % 7;
      assert Ladder(tonic, s, rel) == Ladder(tonic, s, rel - 1) + Interval(s, d);
      assert ScalePitch(tonic, s, rel) == below + Interval(s, d);
    } else {
      assert ScalePitch(tonic, s, 0) == tonic;
    }
  }

  lemma {:induction false} LadderBelow(tonic: int, s: seq<int>, depth: nat)
    requires ValidScale(s)
    ensures ScalePitch(tonic, s, -(depth as int)) == Ladder(tonic, s, -(depth as int))
  {
    if depth > 0 {
      var rel := -(depth as int);
      LadderBelow(tonic, s, depth - 1);
      ScalePitchStep(tonic, s, rel);
      var above := ScalePitch(tonic, s, rel + 1);
      assert above == Ladder(tonic, s, rel + 1);
      var d := rel % 7;
      assert Ladder(tonic, s, rel) == Ladder(tonic, s, rel + 1) - Interval(s, d);
      assert ScalePitch(tonic, s, rel) == above - Interval(s, d);
    } else {
      assert ScalePitch(tonic, s, 0) == tonic;
    }
  }

  /** The closed formula agrees with the step-by-step ladder at every offset. */
  lemma ScalePitchIsLadder(tonic: int, s: seq<int>, rel: int)
    requires ValidScale(s)
    ensures ScalePitch(tonic, s, rel) == Ladder(tonic, s, rel)
  {
    if rel >= 0 {
      LadderAbove(tonic, s, rel);
    } else {
      LadderBelow(tonic, s, -rel);
    }
  }

  /** `position_to_midi` climbs (or descends) the clef's scale one staff step at a time from the tonic `C`. */
  lemma PositionToMidiIsLadder(p: Letter, clef: Clef, tonic: Option<int>)
    ensures PositionToMidi(p, clef, tonic) == Ladder(tonic.GetOr(DefaultTonic(clef)), Scale(clef), StaffStep(p) - ClefLine(clef))
  {
    ScalePitchIsLadder(tonic.GetOr(DefaultTonic(clef)), Scale(clef), StaffStep(p) - ClefLine(clef));
  }

  /** Seven staff steps up is exactly one octave (twelve semitones) up. */
  lemma ScalePitchOctave(tonic: int, s: seq<int>, rel: int)
    requires |s| == 7
    ensures ScalePitch(tonic, s, rel + 7) == ScalePitch(tonic, s, rel) + 12
  {
    assert (rel + 7) / 7 == rel / 7 + 1 && (rel + 7) % 7 == rel % 7;
  }

  /** Higher on the staff is strictly higher in pitch. */
  lemma {:induction false} ScalePitchIncreasing(tonic: int, s: seq<int>, lo: int, hi: int)
    requires ValidScale(s)
    requires lo < hi
    ensures ScalePitch(tonic, s, lo) < ScalePitch(tonic, s, hi)
    decreases hi - lo
  {
    ScalePitchStep(tonic, s, hi - 1);
    if lo < hi - 1 {
      ScalePitchIncreasing(tonic, s, lo, hi - 1);
    }
  }

  /** For a fixed clef and tonic, a letter seven steps higher sounds one octave higher. */
  lemma OctaveAbove(p: Letter, q: Letter, clef: Clef, tonic: Option<int>)
    requires StaffStep(q) == StaffStep(p) + 7
    ensures PositionToMidi(q, clef, tonic) == PositionToMidi(p, clef, tonic) + 12
  {
    ScalePitchOctave(tonic.GetOr(DefaultTonic(clef)), Scale(clef), StaffStep(p) - ClefLine(clef));
  }

  /** For a fixed clef and tonic, pitch is strictly increasing in the staff letter. */
  lemma MidiIncreasing(p: Letter, q: Letter, clef: Clef, tonic: Option<int>)
    requires p < q
    ensures PositionToMidi(p, clef, tonic) < PositionToMidi(q, clef, tonic)
  {
    var t := tonic.GetOr(DefaultTonic(clef));
    ScalePitchIncreasing(t, Scale(clef), StaffStep(p) - ClefLine(clef), StaffStep(q) - ClefLine(clef));
  }

  /**
   * A note on the clef's own line sounds the tonic: the override when one is
   * given, else 72 for `c3`/`c4` and 60 for every other clef.
   */
  lemma ClefLineIsTonic(clef: Clef, tonic: Option<int>)
    ensures PositionToMidi(ClefLetter(clef), clef, tonic) == tonic.GetOr(DefaultTonic(clef))
    ensures DefaultTonic(clef) == (if clef == C3 || clef == C4 then 72 else 60)
  {
  }

  /** Changing the tonic moves every pitch by the same amount. */
  lemma TonicShift(p: Letter, clef: Clef, t: int)
    ensures PositionToMidi(p, clef, Some(t)) == Midi(p, clef) - DefaultTonic(clef) + t
  {
  }

  /**
   * With the same tonic, `cb3`/`cb4` agree with `c3`/`c4` except on the
   * seventh degree, which they lower by one semitone.
   */
  lemma LoweredSeventh(p: Letter, t: int)
    ensures var seventh := (StaffStep(p) - 4) % 7 == 6;
            PositionToMidi(p, CB3, Some(t)) == PositionToMidi(p, C3, Some(t)) - (if seventh then 1 else 0)
    ensures var seventh := (StaffStep(p) - 6) % 7 == 6;
            PositionToMidi(p, CB4, Some(t)) == PositionToMidi(p, C4, Some(t)) - (if seventh then 1 else 0)
  {
  }

  /**
   * Without an override the `cb` clefs take the default tonic 60, so every
   * letter sounds an octave (and, on the seventh degree, a semitone more)
   * below the same letter under `c3`/`c4`.
   */
  lemma FlatClefsSitAnOctaveLower(p: Letter)
    ensures var seventh := (StaffStep(p) - 4) % 7 == 6;
            Midi(p, CB3) == Midi(p, C3) - 12 - (if seventh then 1 else 0)
    ensures var seventh := (StaffStep(p) - 6) % 7 == 6;
            Midi(p, CB4) == Midi(p, C4) - 12 - (if seventh then 1 else 0)
  {
    LoweredSeventh(p, 60);
  }

  /** Pitches of the letters `a`..`m` under each clef, in letter order. */
  function MidiTable(clef: Clef): (row: seq<int>)
    ensures |row| == 13
  {
    match clef
    case C1 => [55, 57, 59, 60, 62, 64, 65, 67, 69, 71, 72, 74, 76]
    case C2 => [52, 53, 55, 57, 59, 60, 62, 64, 65, 67, 69, 71, 72]
    case C3 => [60, 62, 64, 65, 67, 69, 71, 72, 74, 76, 77, 79, 81]
    case CB3 => [48, 50, 52, 53, 55, 57, 58, 60, 62, 64, 65, 67, 69]
    case C4 => [57, 59, 60, 62, 64, 65, 67, 69, 71, 72, 74, 76, 77]
    case CB4 => [45, 46, 48, 50, 52, 53, 55, 57, 58, 60, 62, 64, 65]
    case F3 => [53, 55, 57, 59, 60, 62, 64, 65, 67, 69, 71, 72, 74]
    case F4 => [50, 52, 53, 55, 57, 59, 60, 62, 64, 65, 67, 69, 71]
  }

  /** Floor division and remainder by seven on the offsets the staff can produce. */
  lemma DivModSeven(rel: int)
    requires -14 <= rel < 14
    ensures rel < -7 ==> rel / 7 == -2 && rel % 7 == rel + 14
    ensures -7 <= rel < 0 ==> rel / 7 == -1 && rel % 7 == rel + 7
    ensures 0 <= rel < 7 ==> rel / 7 == 0 && rel % 7 == rel
    ensures 7 <= rel ==> rel / 7 == 1 && rel % 7 == rel - 7
  {
  }

  lemma RowC1(k: int)
    requires 0 <= k < 13
    ensures ScalePitch(60, DiatonicScale, k - 3 - 0) == MidiTable(C1)[k]
  {
    DivModSeven(k - 3 - 0);
  }

  lemma RowC2(k: int)
    requires 0 <= k < 13
    ensures ScalePitch(60, DiatonicScale, k - 3 - 2) == MidiTable(C2)[k]
  {
    DivModSeven(k - 3 - 2);
  }

  lemma RowC3(k: int)
    requires 0 <= k < 13
    ensures ScalePitch(72, DiatonicScale, k - 3 - 4) == MidiTable(C3)[k]
  {
    DivModSeven(k - 3 - 4);
  }

  lemma RowCB3(k: int)
    requires 0 <= k < 13
    ensures ScalePitch(60, LoweredSeventhScale, k - 3 - 4) == MidiTable(CB3)[k]
  {
    DivModSeven(k - 3 - 4);
  }

  lemma RowC4(k: int)
    requires 0 <= k < 13
    ensures ScalePitch(72, DiatonicScale, k - 3 - 6) == MidiTable(C4)[k]
  {
    DivModSeven(k - 3 - 6);
  }

  lemma RowCB4(k: int)
    requires 0 <= k < 13
    ensures ScalePitch(60, LoweredSeventhScale, k - 3 - 6) == MidiTable(CB4)[k]
  {
    DivModSeven(k - 3 - 6);
  }

  lemma RowF3(k: int)
    requires 0 <= k < 13
    ensures ScalePitch(60, DiatonicScale, k - 3 - 1) == MidiTable(F3)[k]
  {
    DivModSeven(k - 3 - 1);
  }

  lemma RowF4(k: int)
    requires 0 <= k < 13
    ensures ScalePitch(60, DiatonicScale, k - 3 - 3) == MidiTable(F4)[k]
  {
    DivModSeven(k - 3 - 3);
  }

  /** One column of the written-out table agrees with the formula, for every clef. */
  lemma RowMatches(clef: Clef, k: int)
    requires 0 <= k < 13
    ensures ScalePitch(DefaultTonic(clef), Scale(clef), k - 3 - ClefLine(clef)) == MidiTable(clef)[k]
  {
    match clef
    case C1 => RowC1(k);
    case C2 => RowC2(k);
    case C3 => RowC3(k);
    case CB3 => RowCB3(k);
    case C4 => RowC4(k);
    case CB4 => RowCB4(k);
    case F3 => RowF3(k);
    case F4 => RowF4(k);
  }

  /** Exhaustive cross-check of the formula against the written-out table. */
  lemma MidiMatchesTable(p: Letter, clef: Clef)
    ensures Midi(p, clef) == MidiTable(clef)[p as int - 'a' as int]
  {
    RowMatches(clef, p as int - 'a' as int);
  }
}
