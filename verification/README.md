# gabc2volpiano converter, modelled in Dafny

This project models `pygabc/converter.py`, the converter that turns chant in
GABC notation into lyrics plus a Volpiano string. It proves properties of the
model. The converter has three parts, and each becomes one or more modules:

- **Pitch resolution** (`Pitch`, `VolpianoTables`, `Resolver`).
  - `position_to_midi` maps a staff letter `a`..`m` and one of the eight clefs
    to a MIDI pitch. It climbs a seven-step scale from the clef's tonic: the
    ordinary major scale, or for `cb3`/`cb4` one with a lowered seventh.
  - Four partial tables then turn the pitch into a Volpiano character. They are
    for notes, liquescents, flats and naturals.
- **Event extraction** (`Events`, `Extractor`).
  - The parse-tree visitor turns each clef, note, barline and spacer into an
    event.
  - It puts syllable and word boundaries strictly between syllables and words,
    in the lyrics list and in the event list alike.
  - It builds the header dictionary of a file.
- **Encoding** (`Encoder`, `Converter`).
  - One left-to-right pass over the events, whose only state is the current
    clef.
  - A clef writes `1`. Barlines, boundaries and spacers copy their literal.
  - Notes, liquescents and alterations resolve against the current clef.
  - `convert` and `convert_file_contents` run extraction and then encoding, and
    concatenate the lyrics.

The parse tree is an abstract datatype: a body is a sequence of words, a word a
sequence of syllables, and a syllable an optional text plus its music tokens.

On the trees the model's datatypes admit, every way the source can raise
becomes an error value:
- `ExtractError.UnknownBarline` for the `KeyError` of `BARLINES[...]`;
- `EncodeError.MissingClef` for `MissingClef`;
- `EncodeError.Unrepresentable` for the `KeyError` of a pitch table;
- `EncodeError.UndefinedSpacer` for the `TypeError` of appending `None`.

The datatypes rule out the remaining raises rather than modelling them. Among
them:
- the `KeyError` of `clef_position[clef]` and of `positions[position]` (lines
  165-166);
- the `[0]` on `results['header']` and `results['body']` in `visit_gabc_file`
  (lines 229-230);
- the `[0]` on `results['attribute_key']` and `results['attribute_value']` in
  `visit_attribute` (lines 237-238);
- the `[0]` on `results.get('position')` in `visit_note` (line 309);
- the asserts of `visit_syllable` (lines 272-273).

The grammar assumption under "## Left out" covers them.

`Joining` holds the separator-join used by the word and body visitors, with its
inverse `Split`. `Wrappers` holds `Option`, `Result` and `Traverse`.
`Traverse` collects results in order and stops at the first failure.

Three facts about the code that the model keeps:

- `SPACERS` maps a bare space `' '` to `None`, and `visit_spacer` keeps that
  event, so the encoder appends `None` and fails. An unlisted spacer symbol
  behaves the same way.
- The `c4` clef sits on letter `j` (`clef_position['c4'] == 6`), and `c3` on
  `h`. These are the letters that sound the tonic 72.
- The music-side boundaries are `--` between syllables and `---` between words
  (lines 67 and 69).

## Model

| member | source | states |
|---|---|---|
| Pitch.StaffStep | pygabc/converter.py:155 | each letter `a`..`m` lies on a staff step from -3 to 9 |
| Pitch.StaffStepMatchesPositions | pygabc/converter.py:155 | the letter distance from `d` equals the written-out `positions` table, whose keys are exactly `a`..`m` |
| Pitch.ClefLine | pygabc/converter.py:156 | every clef sits on a staff step between 0 and 6 |
| Pitch.Scale | pygabc/converter.py:159-162 | both scales are seven strictly rising degrees starting at 0 and staying inside one octave |
| Pitch.DefaultTonic | pygabc/converter.py:146-158 | the tonic is the `MIDI_C_PER_CLEF` entry when the clef has one, and 60 otherwise |
| Pitch.Interval | pygabc/converter.py:159-162 | every step from one degree to the next rises by a positive number of semitones |
| Pitch.ClefLetter | pygabc/converter.py:156 | the letter named for each clef lies exactly on the clef's line |
| Pitch.ScalePitchStep | pygabc/converter.py:169-176 | one staff step up adds exactly the interval of the degree the step starts from |
| Pitch.LadderAbove | pygabc/converter.py:169-176 | at non-negative offsets, the floor-division formula equals climbing the scale one step at a time from the tonic |
| Pitch.LadderBelow | pygabc/converter.py:169-176 | at negative offsets, the formula equals descending the scale one step at a time from the tonic |
| Pitch.ScalePitchIsLadder | pygabc/converter.py:153-178 | at every offset, the closed formula `C + (pos // 7)*12 + scale[pos % 7]` agrees with the step-by-step ladder |
| Pitch.ScalePitchOctave | pygabc/converter.py:169-176 | seven staff steps up is exactly twelve semitones up |
| Pitch.ScalePitchIncreasing | pygabc/converter.py:169-176 | a higher staff offset always gives a strictly higher pitch |
| Pitch.OctaveAbove | pygabc/converter.py:153-178 | for a fixed clef and tonic, a letter seven steps higher sounds one octave higher |
| Pitch.MidiIncreasing | pygabc/converter.py:153-178 | for a fixed clef and tonic, the pitch is strictly increasing in the staff letter |
| Pitch.ClefLineIsTonic | pygabc/converter.py:146-178 | the note on the clef's own line sounds the tonic: 72 for `c3`/`c4` by default, 60 for every other clef |
| Pitch.TonicShift | pygabc/converter.py:153-178 | an explicit tonic `C` moves every pitch by the same amount relative to the default |
| Pitch.LoweredSeventh | pygabc/converter.py:159-162 | with the same tonic, `cb3`/`cb4` sound one semitone below `c3`/`c4` exactly on the seventh degree, and the same pitch elsewhere |
| Pitch.FlatClefsSitAnOctaveLower | pygabc/converter.py:146-178 | with default tonics, a letter under `cb3`/`cb4` sounds an octave below `c3`/`c4`, and a further semitone lower on the seventh degree |
| Pitch.PositionToMidi | pygabc/converter.py:153-178 | the note on the clef's own line sounds the tonic `C`: the override when one is given, the clef's default otherwise |
| Pitch.PositionToMidiIsLadder | pygabc/converter.py:153-178 | the pitch of a letter is reached by climbing (or descending) the clef's scale one staff step at a time from `C` on the clef's line |
| Pitch.Midi | pygabc/converter.py:152-157 | leaving `C` out is the same as passing the clef's `MIDI_C_PER_CLEF` default (60 when the clef has none) |
| Pitch.MidiTable | pygabc/converter.py:153-178 | the written-out pitch table has one entry per letter `a`..`m` for every clef |
| Pitch.RowMatches | pygabc/converter.py:153-178 | each column of the written-out table agrees with the scale formula, for every clef |
| Pitch.MidiMatchesTable | pygabc/converter.py:153-178 | an exhaustive cross-check: every letter under every clef gives the pitch listed in the table |
| VolpianoTables.NaturalRangeExact | pygabc/converter.py:89-115 | the twenty listed pitches are exactly the white keys from 53 to 86 |
| VolpianoTables.NoteDomain | pygabc/converter.py:89-115 | the note table is defined exactly on the white keys from 53 to 86 |
| VolpianoTables.LiquescentDomain | pygabc/converter.py:118-144 | the liquescent table is defined exactly on the white keys from 53 to 86 |
| VolpianoTables.AccidentalDomain | pygabc/converter.py:72-86 | the flat and natural tables are defined exactly on the B and E pitches from 59 to 83 |
| VolpianoTables.Domain | pygabc/converter.py:72-144 | each table's keys are exactly the pitches its flavour can represent |
| VolpianoTables.Lookup | pygabc/converter.py:180-198 | a table lookup succeeds exactly on representable pitches, and then returns the table's entry |
| VolpianoTables.SharedDomain | pygabc/converter.py:89-144 | the note and liquescent tables have the same keys |
| VolpianoTables.TwentyNaturals | pygabc/converter.py:89-115 | the note table has exactly twenty keys |
| VolpianoTables.AccidentalKeys | pygabc/converter.py:72-115 | flat and natural share the keys {59, 64, 71, 76, 83}, a strict subset of the note table's keys |
| VolpianoTables.LiquescentIsUpperCaseNote | pygabc/converter.py:89-144 | a liquescent character is its note character in upper case, except `(` and `)` for the two lowest pitches |
| VolpianoTables.NaturalIsUpperCaseFlat | pygabc/converter.py:72-86 | a natural-sign character is its flat-sign character in upper case |
| VolpianoTables.NoteCharsIncrease | pygabc/converter.py:89-115 | higher pitches get later note characters, so no two pitches share one |
| VolpianoTables.TableAlphabet | pygabc/converter.py:72-144 | every entry of a table lies in that table's character set |
| VolpianoTables.TablesDisjoint | pygabc/converter.py:72-144 | no character appears in two different tables |
| Resolver.PositionToVolpiano | pygabc/converter.py:180-198 | a letter resolves exactly when its pitch is representable for the flavour, and then to the flavour table's entry at that pitch, a character of the flavour's alphabet |
| Resolver.PlainClefGivesNatural | pygabc/converter.py:159-176 | under a clef with the ordinary scale, every letter sounds a white key |
| Resolver.FlatClefPitchClass | pygabc/converter.py:159-176 | under a `cb` clef, a letter's pitch class is its degree on the lowered-seventh scale |
| Resolver.FlatClefSeventhUnrepresentable | pygabc/converter.py:159-188 | under a `cb` clef, the seventh degree has no note or liquescent character |
| Resolver.MidiAtMost81 | pygabc/converter.py:153-178 | no letter under any clef sounds above 81, so the table's top pitches 83, 84 and 86 are never reached |
| Resolver.LowestLetterThreshold | pygabc/converter.py:153-178 | a letter sounds at least 53 exactly when it is at or above the clef's lowest usable letter |
| Resolver.NaturalUnlessLoweredSeventh | pygabc/converter.py:159-176 | a letter sounds a white key exactly when it is not the lowered seventh of a `cb` clef |
| Resolver.PlainNoteCoverage | pygabc/converter.py:153-183 | a plain note fails to resolve exactly below the clef's lowest usable letter or on a `cb` clef's seventh degree (e.g. `c2` at `a` gives 52) |
| Resolver.LiquescentCoverageMatchesNotes | pygabc/converter.py:180-188 | the liquescent lookup fails on exactly the letters where the note lookup fails |
| Resolver.AccidentalCoverage | pygabc/converter.py:190-198 | a flat or natural resolves exactly on letters sounding a B or E from 59 to 83, and such a letter also resolves as a note |
| Events.Lower | pygabc/converter.py:333-334 | an upper-case letter is mapped to its lower-case letter, and a lower-case one is unchanged |
| Events.NoteEventOf | pygabc/converter.py:308-331 | a note yields an alteration iff it carries a flat or natural (flat winning), else a liquescent iff it carries a liquescent mark, else a plain note, always at the lower-cased position |
| Events.StrongestTagIsMaximal | pygabc/converter.py:308-343 | one scan of a note's children finds a tag that is present and outranks every tag present, or none when no child has a tag |
| Events.NoteEventFollowsStrongestTag | pygabc/converter.py:308-331 | the note's event equals the event of its single highest-ranked tag (flat > natural > liquescent) |
| Events.BarlineSeverities | pygabc/converter.py:7-30 | every barline symbol maps to one of `7`, `6`, `4` or `3`, and each severity has exactly its listed symbols |
| Events.SpacerValues | pygabc/converter.py:45-61 | `!`/`@` give the empty string, the `/` family gives `-`, and only the bare space has no value |
| Events.ChildTag | pygabc/converter.py:345-352 | a rhythmic sign never gives a tag |
| Events.ChildTagReadsTables | pygabc/converter.py:336-343 | a child gives the liquescent tag exactly for prefix `-` or neume shape `w`, the flat tag exactly for `x`, the natural tag exactly for `y`, and nothing for any other symbol |
| Events.TokenEvent | pygabc/converter.py:268-355 | a clef token gives its clef event, a note the event its tags select, a barline `BARLINES[v]` or the unknown-barline error, a spacer `SPACERS.get(v)`; only whitespace and empty notes give none, and none gives a boundary |
| Events.MusicEvents | pygabc/converter.py:278-299 | a music node succeeds iff all its barlines are listed; it then has one event per kept token, no boundaries, and only allowed literals |
| Events.MusicEventsSingle | pygabc/converter.py:278-285 | a one-token music node gives exactly that token's event, nothing, or its error |
| Events.MusicEventsAppend | pygabc/converter.py:278-285 | the events of two token runs side by side are the first run's events followed by the second's, in document order, and the first error wins |
| Events.MusicEventsFirstError | pygabc/converter.py:278-292 | a failure reports the first unlisted barline, in document order |
| Extractor.Lyric | pygabc/converter.py:271-276 | a syllable's text is its own text when it has one, and `NO_TEXT` otherwise |
| Extractor.SyllableMusic | pygabc/converter.py:271-276 | a syllable's music succeeds exactly when its barlines are listed, and then has one event per kept token |
| Extractor.WordText | pygabc/converter.py:255-276 | a word's lyrics put the syllable texts in order at even positions and `-` at every odd position: n syllables give n-1 boundaries, none leading or trailing |
| Extractor.WordMusic | pygabc/converter.py:255-266 | a word's music succeeds exactly when every syllable's barlines are listed |
| Extractor.WordMusicHasNoWordBoundary | pygabc/converter.py:255-266 | a word's music never contains a word boundary `---` |
| Extractor.WordMusicSplits | pygabc/converter.py:255-266 | n syllables give exactly n-1 `--` events, and cutting at them recovers each syllable's events in order |
| Extractor.BodyText | pygabc/converter.py:241-253 | a one-word body's lyrics are that word's lyrics |
| Extractor.BodyTextSplits | pygabc/converter.py:241-253 | m words give exactly m-1 word boundaries in the lyrics, and cutting at them recovers each word's lyrics |
| Extractor.BodyMusic | pygabc/converter.py:241-253 | the body's music succeeds exactly when every barline in every syllable is listed |
| Extractor.BodyMusicSplits | pygabc/converter.py:241-253 | m words give exactly m-1 `---` events, and cutting at them recovers each word's events in order |
| Extractor.VisitBody | pygabc/converter.py:241-253 | visiting a body fails exactly on an unlisted barline; otherwise it gives the body's lyrics and music |
| Extractor.HeaderMap | pygabc/converter.py:233-239 | the header dictionary's keys are exactly the attribute keys |
| Extractor.HeaderMapLastWins | pygabc/converter.py:233-234 | a key takes the value of its last occurrence |
| Extractor.VisitFile | pygabc/converter.py:228-231 | visiting a file fails exactly when its body has an unlisted barline, with the body's error; otherwise it gives the header dictionary and the body's lyrics and events |
| Extractor.Render | pygabc/converter.py:458 | a single lyric entry renders as its own text |
| Extractor.RenderIsFlatten | pygabc/converter.py:458 | `''.join(text)` is the rendered entries laid end to end, in order |
| Extractor.RenderJoin | pygabc/converter.py:458 | concatenating a joined lyrics list equals Python's `sep.join` of the concatenated parts |
| Extractor.RenderWordText | pygabc/converter.py:255-266 | a word's lyrics string is its syllable texts joined with `-` |
| Extractor.RenderBodyText | pygabc/converter.py:241-266 | a body's lyrics string is each word's syllables joined with `-`, with the words joined by single spaces |
| Encoder.Piece | pygabc/converter.py:403-436 | a clef writes `1`, a barline or boundary writes its literal, a spacer writes its value or fails when it has none, a pitched event without a clef raises MissingClef, and nothing else fails |
| Encoder.PitchedPiece | pygabc/converter.py:413-436 | under a clef, a pitched event succeeds exactly when its pitch is in its table, then writes the table's entry at the event's pitch, and otherwise names the failing lookup |
| Encoder.EncodeFrom | pygabc/converter.py:400-438 | when the first event fails against the clef in force, the loop stops with that event's error |
| Encoder.Encode | pygabc/converter.py:400-438 | starting without a clef, a first event that is a note fails with MissingClef, and a first spacer without a value fails with UndefinedSpacer |
| Encoder.EncodeFailsOnlyAt | pygabc/converter.py:400-438 | the loop fails only if some event is pitched or is a spacer without a value |
| Encoder.EncodeIsPiecewise | pygabc/converter.py:400-438 | the loop succeeds iff every event succeeds against the clef in force at that event (read backwards as the last clef before it), and otherwise fails with the first failing event's error |
| Encoder.EncodeAppend | pygabc/converter.py:400-438 | encoding a concatenation encodes the second part from the clef the first part leaves, and joins the two outputs |
| Encoder.NoClefInForce | pygabc/converter.py:401-407 | no clef is in force after a sequence exactly when the sequence has no clef event |
| Encoder.MissingClefIff | pygabc/converter.py:413-417 | the loop raises MissingClef exactly when a pitched event comes before every clef and every valueless spacer |
| Encoder.UnpitchedIgnoresClef | pygabc/converter.py:409-411 | events without a pitch encode the same whatever clef is in force |
| Encoder.LiteralEventsEncode | pygabc/converter.py:403-411 | clef, barline, boundary and valued spacer events always succeed, writing `1` per clef and every other literal verbatim, in order |
| Encoder.EncodedIsVolpiano | pygabc/converter.py:400-438 | on well-formed events, every character written is a Volpiano symbol |
| Encoder.ConvertMusicEvents | pygabc/converter.py:388-438 | the imperative loop computes the fold, and succeeds exactly when every event succeeds against the clef in force |
| Converter.ExtractedEventsWellFormed | pygabc/converter.py:241-299 | every extracted event has a listed barline severity, a `--`/`---` boundary, or a spacer value from the table |
| Converter.Convert | pygabc/converter.py:440-459 | conversion succeeds exactly when every barline is listed and the loop succeeds; an unlisted barline gives the visitor's error and a failing loop the loop's error; the lyrics are hyphen-joined syllables and space-joined words, and the Volpiano is the loop's output on the visited events |
| Converter.ConvertFileContents | pygabc/converter.py:461-472 | a file converts exactly as its body does, together with the header dictionary |
| Converter.ConvertWithoutClef | pygabc/converter.py:413-417 | a body whose music has a note but no clef and no valueless spacer fails with MissingClef |
| Converter.ExampleMusic | pygabc/converter.py:241-331 | a clef word followed by "Ky-ri" on F and G with `::` yields clef, `---`, F, `--`, G, barline `4` |
| Converter.ExampleNoteF | pygabc/converter.py:180-183 | under `c4` the letter `f` sounds 65 and is written `f` |
| Converter.ExampleNoteG | pygabc/converter.py:180-183 | under `c4` the letter `g` sounds 67 and is written `g` |
| Converter.ExampleEncoding | pygabc/converter.py:388-438 | the example's events clef, `---`, F, `--`, G, barline `4` encode to `1---f--g4` |
| Converter.ExampleLyrics | pygabc/converter.py:241-276 | the same body's lyrics are " Ky-ri", beginning with the word boundary after the text-less clef word |
| Joining.Join | pygabc/converter.py:241-266 | joining n > 0 parts adds exactly n-1 elements to their concatenation |
| Joining.Split | pygabc/converter.py:241-266 | cutting gives one more part than there are separators, and no part contains the separator |
| Joining.JoinCount | pygabc/converter.py:241-266 | occurrences in a joined sequence are those in the parts, plus n-1 when counting the separator |
| Joining.JoinSingletons | pygabc/converter.py:258-265 | joining single-element parts alternates them with the separator |
| Joining.SplitJoin | pygabc/converter.py:241-266 | cutting a join of separator-free parts recovers the parts |
| Joining.JoinSplit | pygabc/converter.py:241-266 | joining the cut pieces of any sequence rebuilds it |
| Joining.JoinElements | pygabc/converter.py:241-266 | every element of a join is the separator or an element of some part |
| Wrappers.Traverse | pygabc/converter.py:241-266 | collecting per-element results succeeds iff every element succeeds, keeps order and length, and otherwise reports the first failure |

## Left out

- The GABC grammar, `GABCParser` and arpeggio's `visit_parse_tree` (lines 1-3, 383-386, 451-452 and 464-465) are foreign library code. The parse tree is an abstract datatype instead. The model assumes the grammar yields only the eight clef names, the letters `a`..`m` in either case, and exactly one music node per syllable.
- Arpeggio drops children whose visit returns `None`. The model stands for this by having whitespace and empty notes give no event, and rhythmic signs give no tag. `visit_rhythmic_sign` and `visit_empty_note_or_accent` (lines 345-355) therefore contribute nothing.
- `convert_file` (lines 474-478) only reads a file, which is I/O.
- The optional tonic override `C` of `position_to_midi` is modelled by `Pitch.PositionToMidi`. The encoder never passes it, so the encoder uses `Pitch.Midi`, which has no override. `position_to_note`, `position_to_liquescent`, `position_to_flat` and `position_to_natural` (lines 180-198) also take an optional `C` and pass it on; `Resolver.PositionToVolpiano` drops that parameter for the same reason.
- The class constructor and the exception class (lines 383-386, 482-484) hold no logic beyond what the error values stand for.
- Extractor.WordMusicSplits: a syllable with no events still puts `--` in place. This means `--` can lead or trail a word's music when the first or last syllable holds only whitespace. So the property is stated as a split round trip, not as "no leading or trailing boundary".
