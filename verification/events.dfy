/**
 * Music events and the parse-tree leaves they come from. The external GABC
 * grammar is replaced by the `MusicToken`/`Note` datatypes; each token is
 * turned into at most one event by the visitor's per-node handlers, and the
 * literal tables those handlers use are kept as constants.
 */
module Events {
  import opened Wrappers
  import opened Pitch

  /** The two accidentals an alteration event can carry. */
  datatype Accidental = Flat | Natural

  /** One musical event: pitch-bearing events keep their staff letter, the others a literal. */
  datatype Event =
    | ClefEvent(clef: Clef)
    | NoteEvent(position: Letter)
    | LiquescentEvent(position: Letter)
    | AlterationEvent(position: Letter, accidental: Accidental)
    | BarlineEvent(value: string)
    | SpacerEvent(spacer: Option<string>)
    | BoundaryEvent(value: string)

  /** Music events that need a clef to resolve. */
  predicate IsPitched(e: Event) {
    e.NoteEvent? || e.LiquescentEvent? || e.AlterationEvent?
  }

  const MusicSyllableBoundary: string := "--"
  const MusicWordBoundary: string := "---"

  /** Barline symbols and the Volpiano barline each becomes. */
  const Barlines: map<string, string> :=
    map["," := "7", ",_" := "7", ",0" := "7", "'" := "7", "`" := "7",
        ";" := "6", ";1" := "6", ";2" := "6", ";3" := "6", ";4" := "6", ";5" := "6", ";6" := "6",
        "::" := "4",
        ":" := "3", ":?" := "3"]

  /** Spacer symbols; a bare space is listed with no value. */
  const Spacers: map<string, Option<string>> :=
    map["!" := Some(""), "@" := Some(""),
        "/" := Some("-"), "//" := Some("-"),
        "/[-2]" := Some("-"), "/[-1]" := Some("-"), "/[0]" := Some("-"), "/[1]" := Some("-"),
        "/[2]" := Some("-"), "/[3]" := Some("-"), "/[4]" := Some("-"),
        " " := None]

  /** The tags a note's children resolve to. */
  datatype Tag = LiquescentTag | FlatTag | NaturalTag

  const LiquescentPrefixes: map<string, Tag> := map["-" := LiquescentTag]
  const LiquescentNeumeShapes: map<string, Tag> := map["w" := LiquescentTag]
  const Alterations: map<string, Tag> := map["x" := FlatTag, "y" := NaturalTag]

  /** A staff letter as written in GABC: either case. */
  type RawLetter = c: char | 'a' <= c <= 'm' || 'A' <= c <= 'M' witness 'a'

  /** The children of a note node other than its position. */
  datatype NoteChild =
    | Prefix(symbol: string)
    | NeumeShape(symbol: string)
    | AlterationSign(symbol: string)
    | RhythmicSign(symbol: string)

  datatype Note = Note(position: RawLetter, children: seq<NoteChild>)

  /** The children of a music node. */
  datatype MusicToken =
    | ClefToken(clef: Clef)
    | NoteToken(note: Note)
    | BarlineToken(symbol: string)
    | SpacerToken(symbol: string)
    | Whitespace
    | EmptyNoteOrAccent

  /** Extraction fails only on a barline symbol the table does not list (the source's `KeyError`). */
  datatype ExtractError = UnknownBarline(symbol: string)

  /** `visit_position`: the letter in lower case. */
  function Lower(c: RawLetter): (r: Letter)
    ensures 'a' <= c <= 'm' ==> r == c
    ensures 'A' <= c <= 'M' ==> r as int == c as int + ('a' as int - 'A' as int)
  {
    if 'A' <= c <= 'M' then (c as int + 32) as char else c
  }

  /** `visit_prefix`, `visit_neume_shape`, `visit_alteration`; rhythmic signs give nothing. */
  function ChildTag(c: NoteChild): (r: Option<Tag>)
    ensures c.RhythmicSign? ==> r.None?
  {
    match c
    case Prefix(s) => if s in LiquescentPrefixes then Some(LiquescentPrefixes[s]) else None
    case NeumeShape(s) => if s in LiquescentNeumeShapes then Some(LiquescentNeumeShapes[s]) else None
    case AlterationSign(s) => if s in Alterations then Some(Alterations[s]) else None
    case RhythmicSign(_) => None
  }

  /**
   * The tags a child can give: the liquescent prefix `-` or neume shape `w`,
   * and the alterations `x` (flat) and `y` (natural); nothing else gives one.
   */
  lemma ChildTagReadsTables(c: NoteChild)
    ensures ChildTag(c) == Some(LiquescentTag) <==> (c.Prefix? && c.symbol == "-") || (c.NeumeShape? && c.symbol == "w")
    ensures ChildTag(c) == Some(FlatTag) <==> c.AlterationSign? && c.symbol == "x"
    ensures ChildTag(c) == Some(NaturalTag) <==> c.AlterationSign? && c.symbol == "y"
    ensures ChildTag(c).Some? <==> !c.RhythmicSign? && c.symbol in (if c.AlterationSign? then {"x", "y"} else if c.Prefix? then {"-"} else {"w"})
  {
  }

  /** Some child of the note resolves to tag `t` (the source's `t in children`). */
  predicate HasTag(n: Note, t: Tag) {
    exists i :: 0 <= i < |n.children| && ChildTag(n.children[i]) == Some(t)
  }

  /**
   * `visit_note`: exactly one event per note. An accidental wins (flat over
   * natural), then a liquescent prefix or shape, else a plain note; the
   * position is always lower-cased.
   */
  function NoteEventOf(n: Note): (e: Event)
    ensures IsPitched(e) && e.position == Lower(n.position)
    ensures e.AlterationEvent? <==> HasTag(n, FlatTag) || HasTag(n, NaturalTag)
    ensures e.AlterationEvent? ==> (e.accidental == Flat <==> HasTag(n, FlatTag))
    ensures e.LiquescentEvent? <==> !HasTag(n, FlatTag) && !HasTag(n, NaturalTag) && HasTag(n, LiquescentTag)
  {
    var position := Lower(n.position);
    var isLiquescent := HasTag(n, LiquescentTag);
    var isFlat := HasTag(n, FlatTag);
    var isNatural := HasTag(n, NaturalTag);
    if isNatural || isFlat then AlterationEvent(position, if isFlat then Flat else Natural)
    else if isLiquescent then LiquescentEvent(position)
    else NoteEvent(position)
  }

  /** Precedence among the tags: flat over natural over liquescent. */
  function Rank(t: Tag): nat {
    match t
    case FlatTag => 3
    case NaturalTag => 2
    case LiquescentTag => 1
  }

  /** Reference reading of a note: scan its children once, keeping the highest-ranked tag seen. */
  function StrongestTag(children: seq<NoteChild>): Option<Tag> {
    if |children| == 0 then None
    else
      var rest := StrongestTag(children[1..]);
      match ChildTag(children[0])
      case None => rest
      case Some(t) => if rest.Some? && Rank(rest.value) >= Rank(t) then rest else Some(t)
  }

  /** The event a note with strongest tag `t` becomes. */
  function EventForTag(position: Letter, t: Option<Tag>): Event {
    match t
    case None => NoteEvent(position)
    case Some(LiquescentTag) => LiquescentEvent(position)
    case Some(FlatTag) => AlterationEvent(position, Flat)
    case Some(NaturalTag) => AlterationEvent(position, Natural)
  }

  /** The strongest tag is present, and it outranks every tag present. */
  lemma {:induction false} StrongestTagIsMaximal(children: seq<NoteChild>)
    ensures StrongestTag(children).None? <==> forall i :: 0 <= i < |children| ==> ChildTag(children[i]).None?
    ensures StrongestTag(children).Some? ==>
              (exists i :: 0 <= i < |children| && ChildTag(children[i]) == StrongestTag(children))
    ensures forall i :: 0 <= i < |children| && ChildTag(children[i]).Some? ==>
              StrongestTag(children).Some? && Rank(ChildTag(children[i]).value) <= Rank(StrongestTag(children).value)
  {
    if |children| > 0 {
      var rest := children[1..];
      StrongestTagIsMaximal(rest);
      forall i | 1 <= i < |children| ensures children[i] == rest[i - 1] {}
      if StrongestTag(rest).Some? && StrongestTag(children) == StrongestTag(rest) {
        var j :| 0 <= j < |rest| && ChildTag(rest[j]) == StrongestTag(rest);
        assert ChildTag(children[j + 1]) == StrongestTag(children);
      }
    }
  }

  /** `visit_note`'s precedence agrees with keeping only the highest-ranked tag. */
  lemma NoteEventFollowsStrongestTag(n: Note)
    ensures NoteEventOf(n) == EventForTag(Lower(n.position), StrongestTag(n.children))
  {
    StrongestTagIsMaximal(n.children);
    var s := StrongestTag(n.children);
    if s.Some? {
      var j :| 0 <= j < |n.children| && ChildTag(n.children[j]) == s;
      assert HasTag(n, s.value);
    }
    if HasTag(n, FlatTag) {
      var i :| 0 <= i < |n.children| && ChildTag(n.children[i]) == Some(FlatTag);
    } else if HasTag(n, NaturalTag) {
      var i :| 0 <= i < |n.children| && ChildTag(n.children[i]) == Some(NaturalTag);
    } else if HasTag(n, LiquescentTag) {
      var i :| 0 <= i < |n.children| && ChildTag(n.children[i]) == Some(LiquescentTag);
    }
  }

  /** The four Volpiano barline severities. */
  predicate IsSeverity(v: string) {
    v == "7" || v == "6" || v == "4" || v == "3"
  }

  /**
   * Every barline symbol maps to one of the four severities, each severity is
   * reached, and the symbols of each severity are exactly those listed.
   */
  lemma BarlineSeverities(s: string)
    requires s in Barlines
    ensures IsSeverity(Barlines[s])
    ensures Barlines[s] == "7" <==> s in {",", ",_", ",0", "'", "`"}
    ensures Barlines[s] == "6" <==> s in {";", ";1", ";2", ";3", ";4", ";5", ";6"}
    ensures Barlines[s] == "4" <==> s == "::"
    ensures Barlines[s] == "3" <==> s in {":", ":?"}
  {
  }

  /** Neumatic breaks become a dash, `!` and `@` become nothing, and only the bare space has no value. */
  lemma SpacerValues(s: string)
    requires s in Spacers
    ensures Spacers[s] == Some("") <==> s == "!" || s == "@"
    ensures Spacers[s] == None <==> s == " "
    ensures Spacers[s] == Some("-") <==> |s| > 0 && s[0] == '/'
  {
  }

  /** The literal values extraction can give to barlines, boundaries and spacers. */
  predicate WellFormed(e: Event) {
    match e
    case BarlineEvent(v) => IsSeverity(v)
    case BoundaryEvent(v) => v == MusicSyllableBoundary || v == MusicWordBoundary
    case SpacerEvent(v) => v.None? || v.value == "" || v.value == "-"
    case _ => true
  }

  /**
   * The per-node handlers for one child of a music node: `visit_clef`,
   * `visit_note`, `visit_barline`, `visit_spacer`; whitespace and empty notes
   * give no event.
   */
  function TokenEvent(t: MusicToken): (r: Result<Option<Event>, ExtractError>)
    ensures r.Err? <==> t.BarlineToken? && t.symbol !in Barlines
    ensures r.Ok? && r.value.Some? ==> !r.value.value.BoundaryEvent? && WellFormed(r.value.value)
    ensures r.Ok? ==> (r.value.None? <==> t.Whitespace? || t.EmptyNoteOrAccent?)
    ensures t.ClefToken? ==> r == Ok(Some(ClefEvent(t.clef)))
    ensures t.NoteToken? ==> r == Ok(Some(NoteEventOf(t.note)))
    ensures t.BarlineToken? ==> r == if t.symbol in Barlines then Ok(Some(BarlineEvent(Barlines[t.symbol]))) else Err(UnknownBarline(t.symbol))
    ensures t.SpacerToken? ==> r == Ok(Some(SpacerEvent(if t.symbol in Spacers then Spacers[t.symbol] else None)))
  {
    match t
    case ClefToken(c) => Ok(Some(ClefEvent(c)))
    case NoteToken(n) => Ok(Some(NoteEventOf(n)))
    case BarlineToken(s) =>
      if s in Barlines then BarlineSeverities(s); Ok(Some(BarlineEvent(Barlines[s])))
      else Err(UnknownBarline(s))
    case SpacerToken(s) =>
      if s in Spacers then SpacerValues(s); Ok(Some(SpacerEvent(Spacers[s])))
      else Ok(Some(SpacerEvent(None)))
    case Whitespace => Ok(None)
    case EmptyNoteOrAccent => Ok(None)
  }

  /** The token gives an event (it is not whitespace or an empty note). */
  predicate Kept(t: MusicToken) {
    !t.Whitespace? && !t.EmptyNoteOrAccent?
  }

  /** Number of tokens that give an event. */
  function KeptCount(toks: seq<MusicToken>): nat {
    if |toks| == 0 then 0 else (if Kept(toks[0]) then 1 else 0) + KeptCount(toks[1..])
  }

  /** Every barline symbol in the tokens is listed in the table. */
  predicate BarlinesKnown(toks: seq<MusicToken>) {
    forall i :: 0 <= i < |toks| && toks[i].BarlineToken? ==> toks[i].symbol in Barlines
  }

  /**
   * `visit_music`: the events of a syllable's music node, in order. It fails
   * on the first barline the table does not list.
   */
  function MusicEvents(toks: seq<MusicToken>): (r: Result<seq<Event>, ExtractError>)
    ensures r.Ok? <==> BarlinesKnown(toks)
    ensures r.Ok? ==> |r.value| == KeptCount(toks)
    ensures r.Ok? ==> forall j :: 0 <= j < |r.value| ==> !r.value[j].BoundaryEvent? && WellFormed(r.value[j])
  {
    if |toks| == 0 then Ok([])
    else
      var head :- TokenEvent(toks[0]);
      var tail :- MusicEvents(toks[1..]);
      assert forall i :: 1 <= i < |toks| ==> toks[i] == toks[1..][i - 1];
      Ok((if head.Some? then [head.value] else []) + tail)
  }

  /** A single token's events: its own event if it has one, or its error. */
  lemma MusicEventsSingle(t: MusicToken)
    ensures MusicEvents([t]) ==
            match TokenEvent(t)
            case Err(e) => Err(e)
            case Ok(None) => Ok([])
            case Ok(Some(ev)) => Ok([ev])
  {
    assert [t][1..] == [];
    if TokenEvent(t).Ok? && TokenEvent(t).value.Some? {
      assert [TokenEvent(t).value.value] + [] == [TokenEvent(t).value.value];
    }
  }

  /**
   * The events of a music node are those of its parts in document order: the
   * visit of `a + b` is the visit of `a` followed by that of `b`, and fails
   * with the first error.
   */
  lemma {:induction false} MusicEventsAppend(a: seq<MusicToken>, b: seq<MusicToken>)
    ensures MusicEvents(a + b) == Concat(MusicEvents(a), MusicEvents(b))
  {
    if |a| == 0 {
      assert a + b == b;
      if MusicEvents(b).Ok? {
        assert [] + MusicEvents(b).value == MusicEvents(b).value;
      }
    } else {
      assert (a + b)[0] == a[0];
      assert (a + b)[1..] == a[1..] + b;
      MusicEventsAppend(a[1..], b);
      var head := TokenEvent(a[0]);
      if head.Ok? && MusicEvents(a[1..]).Ok? && MusicEvents(b).Ok? {
        var h := if head.value.Some? then [head.value.value] else [];
        assert h + (MusicEvents(a[1..]).value + MusicEvents(b).value) ==
               (h + MusicEvents(a[1..]).value) + MusicEvents(b).value;
      }
    }
  }

  /** A failed extraction reports the first unlisted barline symbol, in document order. */
  lemma {:induction false} MusicEventsFirstError(toks: seq<MusicToken>)
    requires MusicEvents(toks).Err?
    ensures exists i :: 0 <= i < |toks| && toks[i] == BarlineToken(MusicEvents(toks).error.symbol) &&
              toks[i].symbol !in Barlines && BarlinesKnown(toks[..i])
  {
    var rest := toks[1..];
    if TokenEvent(toks[0]).Err? {
      assert MusicEvents(toks).error == TokenEvent(toks[0]).error;
      assert toks[..0] == [];
    } else {
      assert MusicEvents(toks).error == MusicEvents(rest).error;
      MusicEventsFirstError(rest);
      var i :| 0 <= i < |rest| && rest[i] == BarlineToken(MusicEvents(rest).error.symbol) &&
               rest[i].symbol !in Barlines && BarlinesKnown(rest[..i]);
      assert toks[..i + 1] == [toks[0]] + rest[..i];
      assert toks[i + 1] == rest[i];
    }
  }

  /** Events of one music token followed by more tokens. */
  lemma MusicEventsCons(t: MusicToken, rest: seq<MusicToken>)
    ensures MusicEvents([t] + rest) ==
            (match TokenEvent(t)
             case Err(e) => Err(e)
             case Ok(head) =>
               match MusicEvents(rest)
               case Err(e) => Err(e)
               case Ok(tail) => Ok((if head.Some? then [head.value] else []) + tail))
  {
    assert ([t] + rest)[1..] == rest;
  }
}
