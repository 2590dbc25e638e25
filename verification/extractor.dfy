/**
 * The upper levels of the visitor: syllables, words, the body and the file
 * header. A word puts a syllable boundary between consecutive syllables and
 * the body a word boundary between consecutive words, in the lyrics and in
 * the music alike; the lyrics are finally concatenated into one string.
 */
module Extractor {
  import opened Wrappers
  import opened Joining
  import opened Events

  /** A syllable: its text, absent when the syllable has only music, and its music node. */
  datatype Syllable = Syllable(text: Option<string>, music: seq<MusicToken>)

  type Word = seq<Syllable>
  type Body = seq<Word>

  datatype Attribute = Attribute(key: string, value: string)

  /** A whole GABC file: header attributes in order, then the body. */
  datatype GabcFile = GabcFile(header: seq<Attribute>, body: Body)

  const NoText: string := ""
  const TextSyllableBoundary: string := "-"
  const TextWordBoundary: string := " "

  /** One entry of the visitor's lyrics list: a syllable's text or one of the two boundaries. */
  datatype LyricToken = SyllableText(text: string) | SyllableBoundary | WordBoundary

  /** The music-side boundary events. */
  const SyllableBoundaryEvent: Event := BoundaryEvent(MusicSyllableBoundary)
  const WordBoundaryEvent: Event := BoundaryEvent(MusicWordBoundary)

  /** The text a syllable contributes (`visit_syllable`). */
  function Lyric(s: Syllable): (r: string)
    ensures s.text.Some? ==> r == s.text.value
    ensures s.text.None? ==> r == NoText
  {
    s.text.GetOr(NoText)
  }

  /** The lyric entries of a word's syllables, one singleton per syllable. */
  function SyllableEntries(w: Word): seq<seq<LyricToken>> {
    seq(|w|, i requires 0 <= i < |w| => [SyllableText(Lyric(w[i]))])
  }

  /**
   * `visit_word`, lyrics side: the syllables' texts in order at the even
   * positions, a syllable boundary at every odd position, and nothing before
   * the first or after the last syllable.
   */
  function WordText(w: Word): (r: seq<LyricToken>)
    ensures |w| == 0 ==> r == []
    ensures |w| > 0 ==> |r| == 2 * |w| - 1
    ensures forall k :: 0 <= k < |r| ==>
              r[k] == if k % 2 == 0 then SyllableText(Lyric(w[k / 2])) else SyllableBoundary
  {
    var parts := SyllableEntries(w);
    if |w| == 0 then []
    else
      JoinSingletons(parts, SyllableBoundary);
      Join(parts, SyllableBoundary)
  }

  function SyllableMusic(s: Syllable): (r: Result<seq<Event>, ExtractError>)
    ensures r.Ok? <==> BarlinesKnown(s.music)
    ensures r.Ok? ==> |r.value| == KeptCount(s.music)
  {
    MusicEvents(s.music)
  }

  /** Every syllable's music uses only listed barlines. */
  predicate WordBarlinesKnown(w: Word) {
    forall i :: 0 <= i < |w| ==> BarlinesKnown(w[i].music)
  }

  /** `visit_word`, music side: the syllables' events, with a syllable boundary event between consecutive syllables. */
  function WordMusic(w: Word): (r: Result<seq<Event>, ExtractError>)
    ensures r.Ok? <==> WordBarlinesKnown(w)
  {
    var parts :- Traverse(w, SyllableMusic);
    Ok(Join(parts, SyllableBoundaryEvent))
  }

  /** The syllables' event lists of a word whose barlines are all known. */
  function SyllableEventLists(w: Word): seq<seq<Event>>
    requires WordBarlinesKnown(w)
  {
    seq(|w|, i requires 0 <= i < |w| => MusicEvents(w[i].music).value)
  }

  /** A word's music holds no word boundary event. */
  lemma WordMusicHasNoWordBoundary(w: Word)
    requires WordBarlinesKnown(w)
    ensures Free(WordMusic(w).value, WordBoundaryEvent)
  {
    var parts := Traverse(w, SyllableMusic).value;
    forall i | 0 <= i < |parts| ensures Free(parts[i], WordBoundaryEvent) {
      assert SyllableMusic(w[i]) == Ok(parts[i]);
    }
    JoinCount(parts, SyllableBoundaryEvent, WordBoundaryEvent);
    FlattenAllFree(parts, WordBoundaryEvent);
    CountZeroIffFree(WordMusic(w).value, WordBoundaryEvent);
  }

  /**
   * A word with n syllables carries exactly n - 1 syllable boundary events,
   * and cutting its music at them gives back each syllable's events in order.
   */
  lemma WordMusicSplits(w: Word)
    requires |w| > 0 && WordBarlinesKnown(w)
    ensures Count(WordMusic(w).value, SyllableBoundaryEvent) == |w| - 1
    ensures Split(WordMusic(w).value, SyllableBoundaryEvent) == SyllableEventLists(w)
  {
    var parts := Traverse(w, SyllableMusic).value;
    assert parts == SyllableEventLists(w) by {
      forall i | 0 <= i < |w| ensures parts[i] == SyllableEventLists(w)[i] {
        assert SyllableMusic(w[i]) == Ok(parts[i]);
      }
    }
    forall i | 0 <= i < |parts| ensures Free(parts[i], SyllableBoundaryEvent) {
      assert SyllableMusic(w[i]) == Ok(parts[i]);
    }
    SeparatorCount(parts, SyllableBoundaryEvent);
    SplitJoin(parts, SyllableBoundaryEvent);
  }

  /** `visit_body`, lyrics side: the words' lyrics with a word boundary between consecutive words. */
  function BodyText(b: Body): (r: seq<LyricToken>)
    ensures |b| == 1 ==> r == WordText(b[0])
  {
    Join(seq(|b|, i requires 0 <= i < |b| => WordText(b[i])), WordBoundary)
  }

  /** The lyrics of each word, in order. */
  function WordTexts(b: Body): seq<seq<LyricToken>> {
    seq(|b|, i requires 0 <= i < |b| => WordText(b[i]))
  }

  /**
   * A body of n words has exactly n - 1 word boundaries in its lyrics, and
   * cutting the lyrics at them gives back each word's lyrics.
   */
  lemma BodyTextSplits(b: Body)
    requires |b| > 0
    ensures Count(BodyText(b), WordBoundary) == |b| - 1
    ensures Split(BodyText(b), WordBoundary) == WordTexts(b)
  {
    var parts := WordTexts(b);
    assert BodyText(b) == Join(parts, WordBoundary);
    forall i | 0 <= i < |parts| ensures Free(parts[i], WordBoundary) {
      assert parts[i] == WordText(b[i]);
    }
    SeparatorCount(parts, WordBoundary);
    SplitJoin(parts, WordBoundary);
  }

  /** Every word of the body uses only listed barlines. */
  predicate BodyBarlinesKnown(b: Body) {
    forall i :: 0 <= i < |b| ==> WordBarlinesKnown(b[i])
  }

  /** `visit_body`, music side: the words' events with a word boundary event between consecutive words. */
  function BodyMusic(b: Body): (r: Result<seq<Event>, ExtractError>)
    ensures r.Ok? <==> BodyBarlinesKnown(b)
  {
    var parts :- Traverse(b, WordMusic);
    Ok(Join(parts, WordBoundaryEvent))
  }

  /** The words' event lists of a body whose barlines are all known. */
  function WordEventLists(b: Body): seq<seq<Event>>
    requires BodyBarlinesKnown(b)
  {
    seq(|b|, i requires 0 <= i < |b| => WordMusic(b[i]).value)
  }

  /**
   * A body of n words carries exactly n - 1 word boundary events, and cutting
   * its music at them gives back each word's events in order.
   */
  lemma BodyMusicSplits(b: Body)
    requires |b| > 0 && BodyBarlinesKnown(b)
    ensures Count(BodyMusic(b).value, WordBoundaryEvent) == |b| - 1
    ensures Split(BodyMusic(b).value, WordBoundaryEvent) == WordEventLists(b)
  {
    var parts := Traverse(b, WordMusic).value;
    assert parts == WordEventLists(b) by {
      forall i | 0 <= i < |b| ensures parts[i] == WordEventLists(b)[i] {
        assert WordMusic(b[i]) == Ok(parts[i]);
      }
    }
    forall i | 0 <= i < |parts| ensures Free(parts[i], WordBoundaryEvent) {
      assert WordMusic(b[i]) == Ok(parts[i]);
      WordMusicHasNoWordBoundary(b[i]);
    }
    SeparatorCount(parts, WordBoundaryEvent);
    SplitJoin(parts, WordBoundaryEvent);
  }

  /** The visitor's result for a body: the lyrics list and the music events. */
  datatype Extraction = Extraction(text: seq<LyricToken>, music: seq<Event>)

  /** The visit of a body; it fails when some barline is not listed. */
  function VisitBody(b: Body): (r: Result<Extraction, ExtractError>)
    ensures r.Ok? <==> BodyBarlinesKnown(b)
    ensures r.Ok? ==> r.value.text == BodyText(b) && Ok(r.value.music) == BodyMusic(b)
    ensures r.Err? ==> r.error == BodyMusic(b).error
  {
    var music :- BodyMusic(b);
    Ok(Extraction(BodyText(b), music))
  }

  /**
   * `visit_header`: a dictionary built from the attributes in order. Its keys
   * are exactly the attribute keys.
   */
  function HeaderMap(attrs: seq<Attribute>): (h: map<string, string>)
    ensures forall i :: 0 <= i < |attrs| ==> attrs[i].key in h
    ensures forall k :: k in h ==> exists i :: 0 <= i < |attrs| && attrs[i].key == k
  {
    if |attrs| == 0 then map[]
    else
      var init := attrs[..|attrs| - 1];
      var last := attrs[|attrs| - 1];
      assert forall i :: 0 <= i < |init| ==> init[i] == attrs[i];
      HeaderMap(init)[last.key := last.value]
  }

  /** A repeated key keeps the value of its last occurrence. */
  lemma {:induction false} HeaderMapLastWins(attrs: seq<Attribute>, i: nat)
    requires i < |attrs|
    requires forall j :: i < j < |attrs| ==> attrs[j].key != attrs[i].key
    ensures HeaderMap(attrs)[attrs[i].key] == attrs[i].value
  {
    var init := attrs[..|attrs| - 1];
    if i < |attrs| - 1 {
      assert init[i] == attrs[i];
      HeaderMapLastWins(init, i);
    }
  }

  /** `visit_gabc_file`: the header dictionary and the body's extraction. */
  function VisitFile(f: GabcFile): (r: Result<(map<string, string>, Extraction), ExtractError>)
    ensures r.Ok? <==> BodyBarlinesKnown(f.body)
    ensures r.Ok? ==> r.value == (HeaderMap(f.header), Extraction(BodyText(f.body), BodyMusic(f.body).value))
    ensures r.Err? ==> r.error == BodyMusic(f.body).error
  {
    var extraction :- VisitBody(f.body);
    Ok((HeaderMap(f.header), extraction))
  }

  /** The string each lyric entry stands for. */
  function RenderToken(t: LyricToken): string {
    match t
    case SyllableText(s) => s
    case SyllableBoundary => TextSyllableBoundary
    case WordBoundary => TextWordBoundary
  }

  /** `''.join(text)`: the lyric entries concatenated. */
  function Render(ts: seq<LyricToken>): (r: string)
    ensures |ts| == 1 ==> r == RenderToken(ts[0])
  {
    if |ts| == 0 then "" else RenderToken(ts[0]) + Render(ts[1..])
  }

  /** Python's `sep.join(strs)`: the strings with `sep` between consecutive ones. */
  function JoinWith(strs: seq<string>, sep: string): string {
    if |strs| == 0 then ""
    else if |strs| == 1 then strs[0]
    else strs[0] + sep + JoinWith(strs[1..], sep)
  }

  /** `''.join(text)` against Python's definition: the rendered tokens laid end to end. */
  lemma {:induction false} RenderIsFlatten(ts: seq<LyricToken>)
    ensures Render(ts) == Flatten(seq(|ts|, i requires 0 <= i < |ts| => RenderToken(ts[i])))
  {
    if |ts| > 0 {
      var parts := seq(|ts|, i requires 0 <= i < |ts| => RenderToken(ts[i]));
      RenderIsFlatten(ts[1..]);
      assert parts[1..] == seq(|ts| - 1, i requires 0 <= i < |ts| - 1 => RenderToken(ts[1..][i]));
    }
  }

  lemma {:induction false} RenderAppend(a: seq<LyricToken>, b: seq<LyricToken>)
    ensures Render(a + b) == Render(a) + Render(b)
  {
    if |a| > 0 {
      assert (a + b)[1..] == a[1..] + b;
      RenderAppend(a[1..], b);
    } else {
      assert a + b == b;
    }
  }

  /** Rendering a joined list joins the rendered parts with the rendered separator. */
  lemma {:induction false} RenderJoin(parts: seq<seq<LyricToken>>, sep: LyricToken)
    ensures Render(Join(parts, sep)) ==
            JoinWith(seq(|parts|, i requires 0 <= i < |parts| => Render(parts[i])), RenderToken(sep))
  {
    var strs := seq(|parts|, i requires 0 <= i < |parts| => Render(parts[i]));
    if |parts| > 1 {
      RenderJoin(parts[1..], sep);
      var tail := seq(|parts[1..]|, i requires 0 <= i < |parts[1..]| => Render(parts[1..][i]));
      assert tail == strs[1..];
      RenderAppend(parts[0] + [sep], Join(parts[1..], sep));
      RenderAppend(parts[0], [sep]);
      assert Render([sep]) == RenderToken(sep) by {
        assert [sep][1..] == [];
      }
    } else if |parts| == 1 {
      assert strs == [Render(parts[0])];
    }
  }

  /** The texts of a word's syllables, in order. */
  function Lyrics(w: Word): seq<string> {
    seq(|w|, i requires 0 <= i < |w| => Lyric(w[i]))
  }

  /** A word's rendered lyrics are its syllables' texts joined with hyphens. */
  lemma RenderWordText(w: Word)
    ensures Render(WordText(w)) == JoinWith(Lyrics(w), TextSyllableBoundary)
  {
    var parts := SyllableEntries(w);
    if |w| > 0 {
      assert WordText(w) == Join(parts, SyllableBoundary);
    }
    RenderJoin(parts, SyllableBoundary);
    var strs := seq(|parts|, i requires 0 <= i < |parts| => Render(parts[i]));
    forall i | 0 <= i < |w| ensures strs[i] == Lyrics(w)[i] {
      assert parts[i] == [SyllableText(Lyric(w[i]))];
      assert parts[i][1..] == [];
      assert Render(parts[i]) == RenderToken(parts[i][0]) + Render(parts[i][1..]);
    }
    assert strs == Lyrics(w);
  }

  /**
   * The lyrics string of a body: each word's syllable texts joined with
   * hyphens, and the words joined with single spaces.
   */
  lemma RenderBodyText(b: Body)
    ensures Render(BodyText(b)) ==
            JoinWith(seq(|b|, i requires 0 <= i < |b| => JoinWith(Lyrics(b[i]), TextSyllableBoundary)), TextWordBoundary)
  {
    var parts := WordTexts(b);
    RenderJoin(parts, WordBoundary);
    forall i | 0 <= i < |b| ensures Render(parts[i]) == JoinWith(Lyrics(b[i]), TextSyllableBoundary) {
      RenderWordText(b[i]);
    }
    assert seq(|parts|, i requires 0 <= i < |parts| => Render(parts[i])) ==
           seq(|b|, i requires 0 <= i < |b| => JoinWith(Lyrics(b[i]), TextSyllableBoundary));
  }
}
