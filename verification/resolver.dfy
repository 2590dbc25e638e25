/**
 * The four `position_to_<flavour>` functions: resolve a staff letter under a
 * clef to a MIDI pitch and look it up in the table for the flavour.
 */
module Resolver {
  import opened Wrappers
  import opened Pitch
  import opened VolpianoTables

  /**
   * `position_to_note`, `position_to_liquescent`, `position_to_flat` and
   * `position_to_natural`, all without a tonic override. `None` stands for the
   * source's `KeyError` on the table lookup.
   */
  function PositionToVolpiano(p: Letter, clef: Clef, f: Flavour): (r: Option<char>)
    ensures r.Some? <==> Representable(Midi(p, clef), f)
    ensures r.Some? ==> Midi(p, clef) in Table(f) && r.value == Table(f)[Midi(p, clef)]
    ensures r.Some? ==> InAlphabet(r.value, f)
  {
    Lookup(Midi(p, clef), f)
  }

  /** A pitch `d` semitones above some C has pitch class `d`. */
  lemma OctaveClass(octave: int, d: int)
    requires 0 <= d < 12
    ensures (octave * 12 + d) % 12 == d
  {
  }

  /** On the ordinary scale above a C, every staff step lands on a white key. */
  lemma DiatonicStepsAreNatural(octave: int, rel: int)
    ensures IsNaturalPitch(ScalePitch(octave * 12, DiatonicScale, rel))
  {
    var d := DiatonicScale[rel % 7];
    assert ScalePitch(octave * 12, DiatonicScale, rel) == (octave + rel / 7) * 12 + d;
    OctaveClass(octave + rel / 7, d);
  }

  /** Under a clef with the ordinary scale every letter sounds a white key. */
  lemma PlainClefGivesNatural(p: Letter, clef: Clef)
    requires !IsFlatClef(clef)
    ensures IsNaturalPitch(Midi(p, clef))
  {
    var octave := if DefaultTonic(clef) == 72 then 6 else 5;
    assert Scale(clef) == DiatonicScale;
    DiatonicStepsAreNatural(octave, StaffStep(p) - ClefLine(clef));
  }

  /**
   * Under a `cb` clef a letter on the seventh degree sounds a B-flat, which
   * neither the plain nor the liquescent table holds: such notes always fail
   * to resolve.
   */
  lemma FlatClefSeventhUnrepresentable(p: Letter, clef: Clef, f: Flavour)
    requires IsFlatClef(clef)
    requires (StaffStep(p) - ClefLine(clef)) % 7 == 6
    requires f == Plain || f == Liquescent
    ensures PositionToVolpiano(p, clef, f) == None
  {
    var rel := StaffStep(p) - ClefLine(clef);
    assert Midi(p, clef) == 60 + (rel / 7) * 12 + 10;
    OctaveClass(5 + rel / 7, 10);
  }

  /** The lowest letter whose plain note is inside the table's range, under each clef. */
  function LowestLetter(clef: Clef): Letter {
    match clef
    case C2 => 'b'
    case F4 => 'c'
    case CB3 => 'd'
    case CB4 => 'f'
    case _ => 'a'
  }

  /** On the lowered-seventh scale above a C, a step's pitch class is its degree's offset. */
  lemma LoweredStepsClass(octave: int, rel: int)
    ensures ScalePitch(octave * 12, LoweredSeventhScale, rel) % 12 == LoweredSeventhScale[rel % 7]
  {
    var d := LoweredSeventhScale[rel % 7];
    assert ScalePitch(octave * 12, LoweredSeventhScale, rel) == (octave + rel / 7) * 12 + d;
    OctaveClass(octave + rel / 7, d);
  }

  /** Under a `cb` clef a letter's pitch class is its degree on the lowered-seventh scale. */
  lemma FlatClefPitchClass(p: Letter, clef: Clef)
    requires IsFlatClef(clef)
    ensures Midi(p, clef) % 12 == LoweredSeventhScale[(StaffStep(p) - ClefLine(clef)) % 7]
  {
    assert Scale(clef) == LoweredSeventhScale && DefaultTonic(clef) == 5 * 12;
    LoweredStepsClass(5, StaffStep(p) - ClefLine(clef));
  }

  lemma TopLetterAtMost81(clef: Clef)
    ensures Midi('m', clef) <= 81
  {
    MidiMatchesTable('m', clef);
  }

  /** No letter under any clef sounds above 81. */
  lemma MidiAtMost81(p: Letter, clef: Clef)
    ensures Midi(p, clef) <= 81
  {
    TopLetterAtMost81(clef);
    if p < 'm' {
      MidiIncreasing(p, 'm', clef, None);
    }
  }

  /** The lowest usable letter sounds at least 53. */
  lemma LowestLetterInRange(clef: Clef)
    ensures Midi(LowestLetter(clef), clef) >= 53
  {
    match clef
    case C2 => MidiMatchesTable('b', C2);
    case F4 => MidiMatchesTable('c', F4);
    case CB3 => MidiMatchesTable('d', CB3);
    case CB4 => MidiMatchesTable('f', CB4);
    case C1 => MidiMatchesTable('a', C1);
    case C3 => MidiMatchesTable('a', C3);
    case C4 => MidiMatchesTable('a', C4);
    case F3 => MidiMatchesTable('a', F3);
  }

  lemma AtOrAboveLowestLetter(p: Letter, clef: Clef)
    requires LowestLetter(clef) <= p
    ensures Midi(p, clef) >= 53
  {
    LowestLetterInRange(clef);
    if LowestLetter(clef) < p {
      MidiIncreasing(LowestLetter(clef), p, clef, None);
    }
  }

  /** A letter at or below one that sounds at most 52 sounds at most 52 too. */
  lemma AtMost52Below(p: Letter, q: Letter, clef: Clef)
    requires p <= q
    requires Midi(q, clef) <= 52
    ensures Midi(p, clef) <= 52
  {
    if p < q {
      MidiIncreasing(p, q, clef, None);
    }
  }

  lemma BelowLowestLetter(p: Letter, clef: Clef)
    requires p < LowestLetter(clef)
    ensures Midi(p, clef) <= 52
  {
    if clef == C2 {
      MidiMatchesTable('a', C2);
      AtMost52Below(p, 'a', C2);
    } else if clef == F4 {
      MidiMatchesTable('b', F4);
      AtMost52Below(p, 'b', F4);
    } else if clef == CB3 {
      MidiMatchesTable('c', CB3);
      AtMost52Below(p, 'c', CB3);
    } else if clef == CB4 {
      MidiMatchesTable('e', CB4);
      AtMost52Below(p, 'e', CB4);
    }
  }

  /** Letters from the clef's lowest usable letter upward sound at least 53; those below it, at most 52. */
  lemma LowestLetterThreshold(p: Letter, clef: Clef)
    ensures Midi(p, clef) >= 53 <==> p >= LowestLetter(clef)
  {
    if LowestLetter(clef) <= p {
      AtOrAboveLowestLetter(p, clef);
    } else {
      BelowLowestLetter(p, clef);
    }
  }

  /** A letter sounds a white key unless it is the lowered seventh of a `cb` clef. */
  lemma NaturalUnlessLoweredSeventh(p: Letter, clef: Clef)
    ensures IsNaturalPitch(Midi(p, clef)) <==> !(IsFlatClef(clef) && (StaffStep(p) - ClefLine(clef)) % 7 == 6)
  {
    if IsFlatClef(clef) {
      FlatClefPitchClass(p, clef);
    } else {
      PlainClefGivesNatural(p, clef);
    }
  }

  /**
   * Coverage of plain notes: a letter fails to resolve exactly when it sits
   * below the clef's lowest usable letter (`c2` at `a` is pitch 52, `f4` at
   * `a`/`b` are 50/52, ...) or, under a `cb` clef, on the lowered seventh.
   * Nothing ever lies above the table.
   */
  lemma PlainNoteCoverage(p: Letter, clef: Clef)
    ensures PositionToVolpiano(p, clef, Plain).None? <==>
              p < LowestLetter(clef) || (IsFlatClef(clef) && (StaffStep(p) - ClefLine(clef)) % 7 == 6)
  {
    MidiAtMost81(p, clef);
    LowestLetterThreshold(p, clef);
    NaturalUnlessLoweredSeventh(p, clef);
  }

  /** The note and liquescent lookups fail on exactly the same letters. */
  lemma LiquescentCoverageMatchesNotes(p: Letter, clef: Clef)
    ensures PositionToVolpiano(p, clef, Liquescent).None? <==> PositionToVolpiano(p, clef, Plain).None?
  {
  }

  /** A flat or natural sign resolves exactly on the letters that sound a B or E between 59 and 83. */
  lemma AccidentalCoverage(p: Letter, clef: Clef, f: Flavour)
    requires f == Flat || f == Natural
    ensures PositionToVolpiano(p, clef, f).Some? <==> 59 <= Midi(p, clef) <= 83 && IsBOrE(Midi(p, clef))
    ensures PositionToVolpiano(p, clef, f).Some? ==> PositionToVolpiano(p, clef, Plain).Some?
  {
  }
}
