/**
 * The two public conversions: a GABC body to lyrics and Volpiano, and a whole
 * file to its header dictionary, lyrics and Volpiano. Extraction runs first,
 * so an unknown barline is reported before any encoding error.
 */
module Converter {
  import opened Wrappers
  import opened Joining
  import opened Pitch
  import opened Events
  import opened Extractor
  import opened Encoder

  /** The exception a conversion raises: from the visitor or from the encoding loop. */
  datatype ConvertError = ExtractFailed(extract: ExtractError) | EncodeFailed(encode: EncodeError)

  /** The pair `(text, volpiano)` a conversion returns. */
  datatype Conversion = Conversion(text: string, volpiano: string)

  /** The lyrics string of a body: hyphen-joined syllables, space-joined words. */
  function LyricsOf(b: Body): string {
    JoinWith(seq(|b|, i requires 0 <= i < |b| => JoinWith(Lyrics(b[i]), TextSyllableBoundary)), TextWordBoundary)
  }

  /** Every event the visitor extracts from a body carries one of the literal values the tables allow. */
  lemma ExtractedEventsWellFormed(b: Body)
    requires BodyBarlinesKnown(b)
    ensures forall k :: 0 <= k < |BodyMusic(b).value| ==> WellFormed(BodyMusic(b).value[k])
  {
    var words := Traverse(b, WordMusic).value;
    forall i | 0 <= i < |b| ensures forall k :: 0 <= k < |words[i]| ==> WellFormed(words[i][k]) {
      assert WordMusic(b[i]) == Ok(words[i]);
      var w := b[i];
      var syllables := Traverse(w, SyllableMusic).value;
      forall j | 0 <= j < |w| ensures forall k :: 0 <= k < |syllables[j]| ==> WellFormed(syllables[j][k]) {
        assert SyllableMusic(w[j]) == Ok(syllables[j]);
      }
      JoinElements(syllables, SyllableBoundaryEvent, WellFormed);
    }
    JoinElements(words, WordBoundaryEvent, WellFormed);
  }

  /**
   * `convert`: visit the body, encode its events, and concatenate the lyrics.
   * It succeeds exactly when every barline is listed and the encoding loop
   * succeeds; the lyrics are the syllables joined with hyphens inside words
   * and the words joined with spaces, and the Volpiano is in its alphabet.
   */
  function Convert(b: Body): (r: Result<Conversion, ConvertError>)
    ensures r.Ok? <==> BodyBarlinesKnown(b) && Encode(BodyMusic(b).value).Ok?
    ensures !BodyBarlinesKnown(b) ==> r == Err(ExtractFailed(BodyMusic(b).error))
    ensures BodyBarlinesKnown(b) && Encode(BodyMusic(b).value).Err? ==>
              r == Err(EncodeFailed(Encode(BodyMusic(b).value).error))
    ensures r.Ok? ==> r.value.text == LyricsOf(b)
    ensures r.Ok? ==> r.value.volpiano == Encode(BodyMusic(b).value).value
    ensures r.Ok? ==> IsVolpiano(r.value.volpiano)
  {
    match VisitBody(b)
    case Err(e) => Err(ExtractFailed(e))
    case Ok(extraction) =>
      match Encode(extraction.music)
      case Err(e) => Err(EncodeFailed(e))
      case Ok(volpiano) =>
        RenderBodyText(b);
        ExtractedEventsWellFormed(b);
        EncodedIsVolpiano(extraction.music, None);
        Ok(Conversion(Render(extraction.text), volpiano))
  }

  /**
   * `convert_file_contents`: the header dictionary together with the body's
   * conversion, which is exactly what `convert` gives for the body alone.
   */
  function ConvertFileContents(f: GabcFile): (r: Result<(map<string, string>, Conversion), ConvertError>)
    ensures r.Ok? <==> Convert(f.body).Ok?
    ensures r.Ok? ==> r.value.0 == HeaderMap(f.header) && r.value.1 == Convert(f.body).value
    ensures r.Err? ==> r.error == Convert(f.body).error
  {
    match VisitFile(f)
    case Err(e) => Err(ExtractFailed(e))
    case Ok((header, extraction)) =>
      match Encode(extraction.music)
      case Err(e) => Err(EncodeFailed(e))
      case Ok(volpiano) => Ok((header, Conversion(Render(extraction.text), volpiano)))
  }

  /** The first pitched event of a sequence that has one. */
  lemma FirstPitched(evs: seq<Event>) returns (i: nat)
    requires exists k :: 0 <= k < |evs| && IsPitched(evs[k])
    ensures i < |evs| && IsPitched(evs[i])
    ensures forall j :: 0 <= j < i ==> !IsPitched(evs[j])
  {
    var k :| 0 <= k < |evs| && IsPitched(evs[k]);
    i := 0;
    while !IsPitched(evs[i])
      invariant i <= k
      invariant forall j :: 0 <= j < i ==> !IsPitched(evs[j])
      decreases k - i
    {
      i := i + 1;
    }
  }

  /**
   * A body whose music has a note but no clef, and no spacer without a value,
   * fails with `MissingClef`.
   */
  lemma ConvertWithoutClef(b: Body)
    requires BodyBarlinesKnown(b)
    requires ClefFree(BodyMusic(b).value)
    requires forall k :: 0 <= k < |BodyMusic(b).value| ==> !UndefinedSpacerEvent(BodyMusic(b).value[k])
    requires exists k :: 0 <= k < |BodyMusic(b).value| && IsPitched(BodyMusic(b).value[k])
    ensures Convert(b) == Err(EncodeFailed(MissingClef))
  {
    var evs := BodyMusic(b).value;
    var i := FirstPitched(evs);
    assert ReachedWithoutClef(evs, i);
    MissingClefIf(evs, i);
  }

  /** The example body: a clef alone, then "Ky-ri" sung on F and G ending with a double barline. */
  function ExampleBody(): Body {
    [[Syllable(None, [ClefToken(C4)])],
     [Syllable(Some("Ky"), [NoteToken(Note('f', []))]),
      Syllable(Some("ri"), [NoteToken(Note('g', [])), BarlineToken("::")])]]
  }

  /** The example's three syllables, one at a time. */
  lemma ExampleSyllables()
    ensures MusicEvents([ClefToken(C4)]) == Ok([ClefEvent(C4)])
    ensures MusicEvents([NoteToken(Note('f', []))]) == Ok([NoteEvent('f')])
    ensures MusicEvents([NoteToken(Note('g', [])), BarlineToken("::")]) == Ok([NoteEvent('g'), BarlineEvent("4")])
  {
    assert NoteEventOf(Note('f', [])) == NoteEvent('f');
    assert NoteEventOf(Note('g', [])) == NoteEvent('g');
    assert MusicEvents([]) == Ok([]);
    MusicEventsCons(ClefToken(C4), []);
    MusicEventsCons(NoteToken(Note('f', [])), []);
    MusicEventsCons(BarlineToken("::"), []);
    MusicEventsCons(NoteToken(Note('g', [])), [BarlineToken("::")]);
    assert [ClefToken(C4)] + [] == [ClefToken(C4)];
    assert [NoteToken(Note('f', []))] + [] == [NoteToken(Note('f', []))];
    assert [BarlineToken("::")] + [] == [BarlineToken("::")];
    assert [NoteToken(Note('g', []))] + [BarlineToken("::")] == [NoteToken(Note('g', [])), BarlineToken("::")];
    assert TokenEvent(BarlineToken("::")) == Ok(Some(BarlineEvent("4")));
    assert [BarlineEvent("4")] + [] == [BarlineEvent("4")];
    assert [ClefEvent(C4)] + [] == [ClefEvent(C4)];
    assert [NoteEvent('f')] + [] == [NoteEvent('f')];
    assert [NoteEvent('g')] + [BarlineEvent("4")] == [NoteEvent('g'), BarlineEvent("4")];
  }

  /** The example's words: the clef alone, and "Ky-ri" with a syllable boundary event between its notes. */
  lemma ExampleWords()
    ensures WordMusic(ExampleBody()[0]) == Ok([ClefEvent(C4)])
    ensures WordMusic(ExampleBody()[1]) == Ok([NoteEvent('f'), BoundaryEvent("--"), NoteEvent('g'), BarlineEvent("4")])
  {
    var b: Body := ExampleBody();
    ExampleSyllables();
    var m00 := [ClefEvent(C4)];
    var m10 := [NoteEvent('f')];
    var m11 := [NoteEvent('g'), BarlineEvent("4")];
    assert SyllableMusic(b[0][0]) == Ok(m00);
    assert SyllableMusic(b[1][0]) == Ok(m10);
    assert SyllableMusic(b[1][1]) == Ok(m11);
    assert Traverse(b[0], SyllableMusic).value == [m00];
    assert Traverse(b[1], SyllableMusic).value == [m10, m11];
    assert Join([m10, m11], SyllableBoundaryEvent) == m10 + [SyllableBoundaryEvent] + m11;
    assert m10 + [SyllableBoundaryEvent] + m11 == [NoteEvent('f'), BoundaryEvent("--"), NoteEvent('g'), BarlineEvent("4")];
  }

  /** The example's events: a word boundary after the clef and a syllable boundary inside "Ky-ri". */
  lemma ExampleMusic()
    ensures BodyMusic(ExampleBody()) ==
            Ok([ClefEvent(C4), BoundaryEvent("---"), NoteEvent('f'), BoundaryEvent("--"), NoteEvent('g'), BarlineEvent("4")])
  {
    var b: Body := ExampleBody();
    ExampleWords();
    var w0 := [ClefEvent(C4)];
    var w1 := [NoteEvent('f'), BoundaryEvent("--"), NoteEvent('g'), BarlineEvent("4")];
    assert Traverse(b, WordMusic).value == [w0, w1];
    assert Join([w0, w1], WordBoundaryEvent) == w0 + [WordBoundaryEvent] + w1;
    assert w0 + [WordBoundaryEvent] + w1 ==
           [ClefEvent(C4), BoundaryEvent("---"), NoteEvent('f'), BoundaryEvent("--"), NoteEvent('g'), BarlineEvent("4")];
  }

  /** The example's lyrics: the clef's word has no text, so the string starts with the word boundary. */
  lemma ExampleLyrics()
    ensures LyricsOf(ExampleBody()) == " Ky-ri"
  {
    var b: Body := ExampleBody();
    assert Lyrics(b[0]) == [""];
    assert Lyrics(b[1]) == ["Ky", "ri"];
    var words := seq(|b|, i requires 0 <= i < |b| => JoinWith(Lyrics(b[i]), TextSyllableBoundary));
    assert words[0] == "";
    assert ["Ky", "ri"][1..] == ["ri"];
    assert words[1] == "Ky-ri";
    assert words == ["", "Ky-ri"];
    assert JoinWith(["", "Ky-ri"], " ") == "" + " " + "Ky-ri";
  }

  /** Under `c4` the letter `f` sounds 65, written `f`. */
  lemma ExampleNoteF()
    ensures Piece(NoteEvent('f'), Some(C4)) == Ok("f")
  {
    assert Midi('f', C4) == 65 by { MidiMatchesTable('f', C4); }
    assert VolpianoTables.Lookup(65, VolpianoTables.Plain) == Some('f');
  }

  /** Under `c4` the letter `g` sounds 67, written `g`. */
  lemma ExampleNoteG()
    ensures Piece(NoteEvent('g'), Some(C4)) == Ok("g")
  {
    assert Midi('g', C4) == 67 by { MidiMatchesTable('g', C4); }
    assert VolpianoTables.Lookup(67, VolpianoTables.Plain) == Some('g');
  }

  /** The example's events from the first note on, under `c4`. */
  lemma ExampleEncodingTail()
    ensures EncodeFrom([NoteEvent('f'), BoundaryEvent("--"), NoteEvent('g'), BarlineEvent("4")], Some(C4)) == Ok("f--g4")
  {
    assert "4" + "" == "4";
    assert "f" + ("--" + ("g" + "4")) == "f--g4";
    assert [BarlineEvent("4")] + [] == [BarlineEvent("4")];
    assert [NoteEvent('f')] + ([BoundaryEvent("--")] + ([NoteEvent('g')] + [BarlineEvent("4")])) ==
           [NoteEvent('f'), BoundaryEvent("--"), NoteEvent('g'), BarlineEvent("4")];
    var clef := Some(C4);
    ExampleNoteF();
    ExampleNoteG();
    var e4: seq<Event> := [BarlineEvent("4")];
    var e3: seq<Event> := [NoteEvent('g')] + e4;
    var e2: seq<Event> := [BoundaryEvent("--")] + e3;
    var e1: seq<Event> := [NoteEvent('f')] + e2;
    assert EncodeFrom([], clef) == Ok("");
    EncodeConsOk(BarlineEvent("4"), [], clef, "4", "");
    EncodeConsOk(NoteEvent('g'), e4, clef, "g", "4");
    EncodeConsOk(BoundaryEvent("--"), e3, clef, "--", "g" + "4");
    EncodeConsOk(NoteEvent('f'), e2, clef, "f", "--" + ("g" + "4"));
  }

  /** The example's events encode to the clef, the word boundary, F, the syllable boundary, G and the double bar. */
  lemma ExampleEncoding()
    ensures Encode([ClefEvent(C4), BoundaryEvent("---"), NoteEvent('f'), BoundaryEvent("--"), NoteEvent('g'), BarlineEvent("4")])
            == Ok("1---f--g4")
  {
    assert "1" + ("---" + "f--g4") == "1---f--g4";
    assert [ClefEvent(C4)] + ([BoundaryEvent("---")] + [NoteEvent('f'), BoundaryEvent("--"), NoteEvent('g'), BarlineEvent("4")]) ==
           [ClefEvent(C4), BoundaryEvent("---"), NoteEvent('f'), BoundaryEvent("--"), NoteEvent('g'), BarlineEvent("4")];
    var e2: seq<Event> := [NoteEvent('f'), BoundaryEvent("--"), NoteEvent('g'), BarlineEvent("4")];
    var e1: seq<Event> := [BoundaryEvent("---")] + e2;
    ExampleEncodingTail();
    EncodeConsOk(BoundaryEvent("---"), e2, Some(C4), "---", "f--g4");
    EncodeConsOk(ClefEvent(C4), e1, None, "1", "---" + "f--g4");
  }
}
