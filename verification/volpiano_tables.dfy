/**
 * The four pitch-to-Volpiano tables. The plain-note and liquescent tables
 * cover the natural (white-key) pitches from F3 (53) to D6 (86); the flat
 * and natural tables are keyed by the natural B or E whose flat or natural
 * sign they print.
 */
module VolpianoTables {
  import opened Wrappers

  /** Which of the four tables a pitched event is looked up in. */
  datatype Flavour = Plain | Liquescent | Flat | Natural

  const FlatTable: map<int, char> :=
    map[59 := 'y', 64 := 'w', 71 := 'i', 76 := 'x', 83 := 'z']

  const NaturalTable: map<int, char> :=
    map[59 := 'Y', 64 := 'W', 71 := 'I', 76 := 'X', 83 := 'Z']

  const NoteTable: map<int, char> :=
    map[53 := '8', 55 := '9', 57 := 'a', 59 := 'b', 60 := 'c', 62 := 'd', 64 := 'e',
        65 := 'f', 67 := 'g', 69 := 'h', 71 := 'j', 72 := 'k', 74 := 'l', 76 := 'm',
        77 := 'n', 79 := 'o', 81 := 'p', 83 := 'q', 84 := 'r', 86 := 's']

  const LiquescentTable: map<int, char> :=
    map[53 := '(', 55 := ')', 57 := 'A', 59 := 'B', 60 := 'C', 62 := 'D', 64 := 'E',
        65 := 'F', 67 := 'G', 69 := 'H', 71 := 'J', 72 := 'K', 74 := 'L', 76 := 'M',
        77 := 'N', 79 := 'O', 81 := 'P', 83 := 'Q', 84 := 'R', 86 := 'S']

  /** A pitch on a white key: C, D, E, F, G, A or B in some octave. */
  predicate IsNaturalPitch(m: int) {
    var pc := m % 12;
    pc == 0 || pc == 2 || pc == 4 || pc == 5 || pc == 7 || pc == 9 || pc == 11
  }

  /** A natural B or E: the only pitches whose flat Volpiano can print. */
  predicate IsBOrE(m: int) {
    m % 12 == 11 || m % 12 == 4
  }

  /** Independent description of each table's domain. */
  predicate Representable(m: int, f: Flavour) {
    match f
    case Plain => 53 <= m <= 86 && IsNaturalPitch(m)
    case Liquescent => 53 <= m <= 86 && IsNaturalPitch(m)
    case Flat => 59 <= m <= 83 && IsBOrE(m)
    case Natural => 59 <= m <= 83 && IsBOrE(m)
  }

  function Table(f: Flavour): map<int, char> {
    match f
    case Plain => NoteTable
    case Liquescent => LiquescentTable
    case Flat => FlatTable
    case Natural => NaturalTable
  }

  /** Upper-case of an ASCII letter; other characters unchanged. */
  function Upper(c: char): char {
    if 'a' <= c <= 'z' then (c as int - 32) as char else c
  }

  /** The natural pitches 53..86, in order. */
  const NaturalRange: seq<int> :=
    [53, 55, 57, 59, 60, 62, 64, 65, 67, 69, 71, 72, 74, 76, 77, 79, 81, 83, 84, 86]

  /** Every white key from 53 to 86 is one of the twenty listed. */
  lemma NaturalRangeComplete(m: int)
    requires 53 <= m <= 86 && IsNaturalPitch(m)
    ensures m in NaturalRange
  {
    var octave := m / 12;
    assert 4 <= octave <= 7;
    assert m == octave * 12 + m % 12;
  }

  /** The twenty naturals are exactly the white keys from 53 to 86. */
  lemma NaturalRangeExact(m: int)
    ensures m in NaturalRange <==> 53 <= m <= 86 && IsNaturalPitch(m)
  {
    if 53 <= m <= 86 && IsNaturalPitch(m) {
      NaturalRangeComplete(m);
    }
  }

  lemma NoteDomain(m: int)
    ensures m in NoteTable <==> Representable(m, Plain)
  {
    NaturalRangeExact(m);
    assert m in NoteTable <==> m in NaturalRange;
  }

  lemma LiquescentDomain(m: int)
    ensures m in LiquescentTable <==> Representable(m, Liquescent)
  {
    NaturalRangeExact(m);
    assert m in LiquescentTable <==> m in NaturalRange;
  }

  lemma AccidentalDomain(m: int)
    ensures m in FlatTable <==> Representable(m, Flat)
    ensures m in NaturalTable <==> Representable(m, Natural)
  {
    if 59 <= m <= 83 && IsBOrE(m) {
      var octave := m / 12;
      assert 4 <= octave <= 6;
      assert m == octave * 12 + m % 12;
    }
  }

  /** Each table's keys are exactly the pitches its flavour can represent. */
  lemma Domain(m: int, f: Flavour)
    ensures m in Table(f) <==> Representable(m, f)
  {
    match f
    case Plain => NoteDomain(m);
    case Liquescent => LiquescentDomain(m);
    case Flat => AccidentalDomain(m);
    case Natural => AccidentalDomain(m);
  }

  /**
   * The source's dictionary lookup `MIDI_TO_VOLPIANO_<flavour>[midi]`: the
   * character when the pitch is a key, `None` (the source's `KeyError`)
   * otherwise.
   */
  function Lookup(m: int, f: Flavour): (r: Option<char>)
    ensures r.Some? <==> Representable(m, f)
    ensures r.Some? ==> r.value == Table(f)[m]
    ensures r.Some? ==> InAlphabet(r.value, f)
  {
    Domain(m, f);
    if m in Table(f) then TableAlphabet(m, f); Some(Table(f)[m]) else None
  }

  /** The note and liquescent lookups are defined on the same pitches. */
  lemma SharedDomain()
    ensures NoteTable.Keys == LiquescentTable.Keys
  {
    forall m ensures m in NoteTable.Keys <==> m in LiquescentTable.Keys {
      NoteDomain(m);
      LiquescentDomain(m);
    }
  }

  /** A strictly increasing sequence has as many distinct elements as entries. */
  lemma {:induction false} IncreasingElementCount(s: seq<int>)
    requires forall i :: 0 <= i < |s| - 1 ==> s[i] < s[i + 1]
    ensures |(set x | x in s)| == |s|
  {
    if |s| > 0 {
      var rest := s[1..];
      IncreasingElementCount(rest);
      assert forall i :: 0 <= i < |rest| ==> s[0] < rest[i] by {
        forall i | 0 <= i < |rest| ensures s[0] < rest[i] {
          var j := 0;
          while j < i
            invariant 0 <= j <= i
            invariant s[0] < rest[j]
          {
            j := j + 1;
          }
        }
      }
      assert (set x | x in s) == {s[0]} + (set x | x in rest);
    }
  }

  /** There are twenty representable plain (and liquescent) pitches. */
  lemma TwentyNaturals()
    ensures |NoteTable.Keys| == 20
  {
    forall m ensures m in NoteTable.Keys <==> m in NaturalRange {
      NoteDomain(m);
      NaturalRangeExact(m);
    }
    assert NoteTable.Keys == set x | x in NaturalRange;
    IncreasingElementCount(NaturalRange);
  }

  /** Flat and natural are defined on the same five pitches, all of which are also plain notes. */
  lemma AccidentalKeys()
    ensures FlatTable.Keys == NaturalTable.Keys == {59, 64, 71, 76, 83}
    ensures FlatTable.Keys < NoteTable.Keys
  {
    assert 53 in NoteTable && 53 !in FlatTable;
  }

  /** Liquescent characters are the upper-case note characters, except for the two lowest pitches. */
  lemma LiquescentIsUpperCaseNote(m: int)
    requires m in NoteTable
    ensures m >= 57 ==> LiquescentTable[m] == Upper(NoteTable[m])
    ensures m == 53 ==> LiquescentTable[m] == '('
    ensures m == 55 ==> LiquescentTable[m] == ')'
  {
  }

  /** Natural-sign characters are the upper-case flat-sign characters. */
  lemma NaturalIsUpperCaseFlat(m: int)
    requires m in FlatTable
    ensures NaturalTable[m] == Upper(FlatTable[m])
  {
  }

  /** Higher pitches get later characters, so no two pitches share a note character. */
  lemma NoteCharsIncrease(a: int, b: int)
    requires a in NoteTable && b in NoteTable
    requires a < b
    ensures NoteTable[a] < NoteTable[b]
  {
  }

  /** The characters each table can print. */
  predicate InAlphabet(c: char, f: Flavour) {
    match f
    case Plain => '8' <= c <= '9' || ('a' <= c <= 's' && c != 'i')
    case Liquescent => c == '(' || c == ')' || ('A' <= c <= 'S' && c != 'I')
    case Flat => c == 'i' || 'w' <= c <= 'z'
    case Natural => c == 'I' || 'W' <= c <= 'Z'
  }

  lemma TableAlphabet(m: int, f: Flavour)
    requires m in Table(f)
    ensures InAlphabet(Table(f)[m], f)
  {
  }

  /** A character identifies its table: no character appears in two of the four tables. */
  lemma TablesDisjoint(f: Flavour, g: Flavour, a: int, b: int)
    requires f != g
    requires a in Table(f) && b in Table(g)
    ensures Table(f)[a] != Table(g)[b]
  {
    TableAlphabet(a, f);
    TableAlphabet(b, g);
  }
}
