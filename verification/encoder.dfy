/**
 * The second pass: turn the event sequence into a Volpiano string, tracking
 * the most recent clef. Clef-independent events contribute their literal
 * value; notes, liquescents and alterations are resolved against the clef in
 * force and fail when there is none.
 */
module Encoder {
  import opened Wrappers
  import opened Pitch
  import opened Events
  import VolpianoTables
  import Resolver

  /** The Volpiano symbol written for every clef, whatever its kind. */
  const ClefSymbol: string := "1"

  /**
   * Why encoding stops: no clef before a pitched event (`MissingClef`), a
   * pitch outside the event's table (the source's `KeyError`), or a spacer
   * with no value, which the source appends to a string (its `TypeError`).
   */
  datatype EncodeError =
    | MissingClef
    | Unrepresentable(position: Letter, clef: Clef, flavour: VolpianoTables.Flavour)
    | UndefinedSpacer

  /** The table a pitched event is looked up in. */
  function FlavourOf(e: Event): VolpianoTables.Flavour
    requires IsPitched(e)
  {
    match e
    case NoteEvent(_) => VolpianoTables.Plain
    case LiquescentEvent(_) => VolpianoTables.Liquescent
    case AlterationEvent(_, Flat) => VolpianoTables.Flat
    case AlterationEvent(_, Natural) => VolpianoTables.Natural
  }

  /** The event's pitch can be printed under `clef`. */
  predicate Resolvable(e: Event, clef: Clef)
    requires IsPitched(e)
  {
    VolpianoTables.Representable(Midi(e.position, clef), FlavourOf(e))
  }

  /**
   * One iteration of the encoding loop: the text event `e` appends when
   * `clef` is the clef in force. A clef is always written as the clef
   * symbol, a pitched event needs a clef, and only pitched events and
   * spacers can fail.
   */
  function Piece(e: Event, clef: Option<Clef>): (r: Result<string, EncodeError>)
    ensures e.ClefEvent? ==> r == Ok(ClefSymbol)
    ensures IsPitched(e) && clef.None? ==> r == Err(MissingClef)
    ensures e.BarlineEvent? || e.BoundaryEvent? ==> r == Ok(e.value)
    ensures e.SpacerEvent? ==> r == (if e.spacer.Some? then Ok(e.spacer.value) else Err(UndefinedSpacer))
    ensures r.Err? ==> IsPitched(e) || e.SpacerEvent?
  {
    match e
    case ClefEvent(_) => Ok(ClefSymbol)
    case BarlineEvent(v) => Ok(v)
    case BoundaryEvent(v) => Ok(v)
    case SpacerEvent(v) => if v.Some? then Ok(v.value) else Err(UndefinedSpacer)
    case _ =>
      if clef.None? then Err(MissingClef)
      else
        match Resolver.PositionToVolpiano(e.position, clef.value, FlavourOf(e))
        case Some(c) => Ok([c])
        case None => Err(Unrepresentable(e.position, clef.value, FlavourOf(e)))
  }

  /**
   * Under a clef, a pitched event succeeds exactly when its pitch is in its
   * table; it then writes the table's entry for the event's pitch, one
   * character of that table's alphabet, and otherwise fails naming the
   * position, clef and table.
   */
  lemma PitchedPiece(e: Event, clef: Clef)
    requires IsPitched(e)
    ensures Piece(e, Some(clef)).Ok? <==> Resolvable(e, clef)
    ensures Piece(e, Some(clef)).Ok? ==>
              var m := Midi(e.position, clef);
              m in VolpianoTables.Table(FlavourOf(e)) && Piece(e, Some(clef)).value == [VolpianoTables.Table(FlavourOf(e))[m]]
    ensures Piece(e, Some(clef)).Ok? ==>
              |Piece(e, Some(clef)).value| == 1 && VolpianoTables.InAlphabet(Piece(e, Some(clef)).value[0], FlavourOf(e))
    ensures Piece(e, Some(clef)).Err? ==> Piece(e, Some(clef)).error == Unrepresentable(e.position, clef, FlavourOf(e))
  {
  }

  /** The clef in force after one event. */
  function NextClef(e: Event, clef: Option<Clef>): Option<Clef> {
    if e.ClefEvent? then Some(e.clef) else clef
  }

  /** The encoding loop from a given clef onwards: pieces in order, stopping at the first failure. */
  function EncodeFrom(evs: seq<Event>, clef: Option<Clef>): (r: Result<string, EncodeError>)
    ensures |evs| > 0 && Piece(evs[0], clef).Err? ==> r == Err(Piece(evs[0], clef).error)
  {
    if |evs| == 0 then Ok("")
    else
      var head :- Piece(evs[0], clef);
      var tail :- EncodeFrom(evs[1..], NextClef(evs[0], clef));
      Ok(head + tail)
  }

  /** `_convert_music_events_to_volpiano`: the loop starting with no clef. */
  function Encode(evs: seq<Event>): (r: Result<string, EncodeError>)
    ensures |evs| > 0 && IsPitched(evs[0]) ==> r == Err(MissingClef)
    ensures |evs| > 0 && UndefinedSpacerEvent(evs[0]) ==> r == Err(UndefinedSpacer)
  {
    EncodeFrom(evs, None)
  }

  /**
   * Reference for the clef in force after `evs`, read backwards: the last clef
   * event in `evs`, or `clef` when there is none.
   */
  function ClefAfter(evs: seq<Event>, clef: Option<Clef>): Option<Clef> {
    if |evs| == 0 then clef
    else if evs[|evs| - 1].ClefEvent? then Some(evs[|evs| - 1].clef)
    else ClefAfter(evs[..|evs| - 1], clef)
  }

  /** The piece event `i` contributes when the loop reaches it, starting from `clef`. */
  function PieceAt(evs: seq<Event>, i: nat, clef: Option<Clef>): Result<string, EncodeError>
    requires i < |evs|
  {
    Piece(evs[i], ClefAfter(evs[..i], clef))
  }

  /** The clef in force after `[e] + rest` is that after `rest` from the clef `e` leaves. */
  lemma {:induction false} ClefAfterCons(e: Event, rest: seq<Event>, clef: Option<Clef>)
    ensures ClefAfter([e] + rest, clef) == ClefAfter(rest, NextClef(e, clef))
    decreases |rest|
  {
    var s := [e] + rest;
    if |rest| > 0 {
      assert s[..|s| - 1] == [e] + rest[..|rest| - 1];
      assert s[|s| - 1] == rest[|rest| - 1];
      ClefAfterCons(e, rest[..|rest| - 1], clef);
    } else {
      assert s[..0] == [];
    }
  }

  /**
   * The loop succeeds exactly when every event's piece, taken against the clef
   * in force at that event, succeeds; when it fails, the error is that of the
   * first failing piece.
   */
  lemma {:induction false} EncodeIsPiecewise(evs: seq<Event>, clef: Option<Clef>)
    ensures EncodeFrom(evs, clef).Ok? <==> forall i :: 0 <= i < |evs| ==> PieceAt(evs, i, clef).Ok?
    ensures EncodeFrom(evs, clef).Err? ==>
              exists i :: 0 <= i < |evs| && PieceAt(evs, i, clef) == Err(EncodeFrom(evs, clef).error) &&
                forall j :: 0 <= j < i ==> PieceAt(evs, j, clef).Ok?
  {
    if |evs| > 0 {
      var rest := evs[1..];
      var next := NextClef(evs[0], clef);
      EncodeIsPiecewise(rest, next);
      assert evs[..0] == [];
      assert PieceAt(evs, 0, clef) == Piece(evs[0], clef);
      forall i | 1 <= i < |evs| ensures PieceAt(evs, i, clef) == PieceAt(rest, i - 1, next) {
        assert evs[..i] == [evs[0]] + rest[..i - 1];
        ClefAfterCons(evs[0], rest[..i - 1], clef);
      }
      if Piece(evs[0], clef).Ok? && EncodeFrom(rest, next).Err? {
        var i :| 0 <= i < |rest| && PieceAt(rest, i, next) == Err(EncodeFrom(rest, next).error) &&
                 forall j :: 0 <= j < i ==> PieceAt(rest, j, next).Ok?;
        assert PieceAt(evs, i + 1, clef) == Err(EncodeFrom(evs, clef).error);
      }
    }
  }

  /** Encoding a concatenation: the second part continues from the clef the first part leaves. */
  lemma {:induction false} EncodeAppend(a: seq<Event>, b: seq<Event>, clef: Option<Clef>)
    ensures EncodeFrom(a + b, clef) == Concat(EncodeFrom(a, clef), EncodeFrom(b, ClefAfter(a, clef)))
  {
    if |a| == 0 {
      assert a + b == b;
      if EncodeFrom(b, clef).Ok? {
        assert "" + EncodeFrom(b, clef).value == EncodeFrom(b, clef).value;
      }
    } else {
      var next := NextClef(a[0], clef);
      assert (a + b)[1..] == a[1..] + b;
      assert (a + b)[0] == a[0];
      EncodeAppend(a[1..], b, next);
      assert a == [a[0]] + a[1..];
      ClefAfterCons(a[0], a[1..], clef);
      var head := Piece(a[0], clef);
      var x := EncodeFrom(a[1..], next);
      var y := EncodeFrom(b, ClefAfter(a, clef));
      if head.Ok? && x.Ok? && y.Ok? {
        assert head.value + (x.value + y.value) == (head.value + x.value) + y.value;
      }
    }
  }

  /** No clef event occurs in `evs`. */
  predicate ClefFree(evs: seq<Event>) {
    forall i :: 0 <= i < |evs| ==> !evs[i].ClefEvent?
  }

  lemma {:induction false} ClefFreeKeepsClef(evs: seq<Event>, clef: Option<Clef>)
    requires ClefFree(evs)
    ensures ClefAfter(evs, clef) == clef
  {
    if |evs| > 0 {
      ClefFreeKeepsClef(evs[..|evs| - 1], clef);
    }
  }

  /** Starting without a clef, no clef is in force after `evs` exactly when `evs` holds no clef event. */
  lemma {:induction false} NoClefInForce(evs: seq<Event>)
    ensures ClefAfter(evs, None).None? <==> ClefFree(evs)
  {
    if |evs| > 0 {
      var init := evs[..|evs| - 1];
      NoClefInForce(init);
      assert forall i :: 0 <= i < |init| ==> init[i] == evs[i];
    }
  }

  /** A spacer that has no Volpiano value. */
  predicate UndefinedSpacerEvent(e: Event) {
    e.SpacerEvent? && e.spacer.None?
  }

  /** Event `i` is pitched and everything before it is clef-free, pitch-free and has a value. */
  predicate ReachedWithoutClef(evs: seq<Event>, i: nat)
    requires i < |evs|
  {
    IsPitched(evs[i]) &&
    forall j :: 0 <= j < i ==> !IsPitched(evs[j]) && !evs[j].ClefEvent? && !UndefinedSpacerEvent(evs[j])
  }

  /** Before any clef, a piece succeeds exactly for clef-independent events with a value. */
  lemma PiecesBeforeClef(evs: seq<Event>, i: nat)
    requires i < |evs|
    requires ClefFree(evs[..i])
    ensures ClefAfter(evs[..i], None) == None
    ensures forall j :: 0 <= j < i ==> ClefAfter(evs[..j], None) == None
  {
    ClefFreeKeepsClef(evs[..i], None);
    forall j | 0 <= j < i ensures ClefAfter(evs[..j], None) == None {
      assert ClefFree(evs[..j]) by {
        assert forall k :: 0 <= k < j ==> evs[..j][k] == evs[..i][k];
      }
      ClefFreeKeepsClef(evs[..j], None);
    }
  }

  /** When the loop raises `MissingClef`, a pitched event was reached before any clef. */
  lemma MissingClefOnlyIf(evs: seq<Event>)
    requires Encode(evs) == Err(MissingClef)
    ensures exists i :: 0 <= i < |evs| && ReachedWithoutClef(evs, i)
  {
    EncodeIsPiecewise(evs, None);
    var i :| 0 <= i < |evs| && PieceAt(evs, i, None) == Err(MissingClef) &&
             forall j :: 0 <= j < i ==> PieceAt(evs, j, None).Ok?;
    var here := ClefAfter(evs[..i], None);
    assert Piece(evs[i], here) == Err(MissingClef);
    assert IsPitched(evs[i]) && here.None?;
    NoClefInForce(evs[..i]);
    PiecesBeforeClef(evs, i);
    forall j | 0 <= j < i
      ensures !IsPitched(evs[j]) && !evs[j].ClefEvent? && !UndefinedSpacerEvent(evs[j])
    {
      assert evs[..i][j] == evs[j];
      assert PieceAt(evs, j, None) == Piece(evs[j], None);
    }
    assert ReachedWithoutClef(evs, i);
  }

  /** When a pitched event is reached before any clef, the loop raises `MissingClef`. */
  lemma MissingClefIf(evs: seq<Event>, i: nat)
    requires i < |evs| && ReachedWithoutClef(evs, i)
    ensures Encode(evs) == Err(MissingClef)
  {
    EncodeIsPiecewise(evs, None);
    assert ClefFree(evs[..i]);
    PiecesBeforeClef(evs, i);
    assert PieceAt(evs, i, None) == Err(MissingClef);
    var k :| 0 <= k < |evs| && PieceAt(evs, k, None) == Err(Encode(evs).error) &&
             forall j :: 0 <= j < k ==> PieceAt(evs, j, None).Ok?;
    assert k == i;
  }

  /**
   * The loop raises `MissingClef` exactly when some pitched event comes before
   * every clef and before every undefined spacer.
   */
  lemma MissingClefIff(evs: seq<Event>)
    ensures Encode(evs) == Err(MissingClef) <==> exists i :: 0 <= i < |evs| && ReachedWithoutClef(evs, i)
  {
    if Encode(evs) == Err(MissingClef) {
      MissingClefOnlyIf(evs);
    }
    if exists i :: 0 <= i < |evs| && ReachedWithoutClef(evs, i) {
      var i :| 0 <= i < |evs| && ReachedWithoutClef(evs, i);
      MissingClefIf(evs, i);
    }
  }

  /**
   * The loop only ever fails on a pitched event (no clef, or no Volpiano
   * character) or on a spacer without a value: clefs, barlines and
   * boundaries always contribute their text.
   */
  lemma {:induction false} EncodeFailsOnlyAt(evs: seq<Event>, clef: Option<Clef>)
    ensures EncodeFrom(evs, clef).Err? ==>
              exists i :: 0 <= i < |evs| && (IsPitched(evs[i]) || UndefinedSpacerEvent(evs[i]))
  {
    if |evs| > 0 && EncodeFrom(evs, clef).Err? {
      if Piece(evs[0], clef).Err? {
        assert IsPitched(evs[0]) || UndefinedSpacerEvent(evs[0]);
      } else {
        var rest := evs[1..];
        EncodeFailsOnlyAt(rest, NextClef(evs[0], clef));
        var j :| 0 <= j < |rest| && (IsPitched(rest[j]) || UndefinedSpacerEvent(rest[j]));
        assert rest[j] == evs[j + 1];
      }
    }
  }

  /** Events without a pitch encode the same whatever clef is in force at the start. */
  lemma {:induction false} UnpitchedIgnoresClef(evs: seq<Event>, c: Option<Clef>, d: Option<Clef>)
    requires forall i :: 0 <= i < |evs| ==> !IsPitched(evs[i])
    ensures EncodeFrom(evs, c) == EncodeFrom(evs, d)
  {
    if |evs| > 0 {
      assert Piece(evs[0], c) == Piece(evs[0], d);
      UnpitchedIgnoresClef(evs[1..], NextClef(evs[0], c), NextClef(evs[0], d));
    }
  }

  /** A character of the Volpiano alphabet the converter writes. */
  predicate VolpianoChar(c: char) {
    c == '1' || c == '-' || c == '3' || c == '4' || c == '6' || c == '7' ||
    VolpianoTables.InAlphabet(c, VolpianoTables.Plain) ||
    VolpianoTables.InAlphabet(c, VolpianoTables.Liquescent) ||
    VolpianoTables.InAlphabet(c, VolpianoTables.Flat) ||
    VolpianoTables.InAlphabet(c, VolpianoTables.Natural)
  }

  predicate IsVolpiano(s: string) {
    forall k :: 0 <= k < |s| ==> VolpianoChar(s[k])
  }

  /** The text an event without a pitch stands for: the clef symbol, or its own literal. */
  function LiteralText(e: Event): string
    requires !IsPitched(e) && !UndefinedSpacerEvent(e)
  {
    match e
    case ClefEvent(_) => ClefSymbol
    case BarlineEvent(v) => v
    case BoundaryEvent(v) => v
    case SpacerEvent(v) => v.value
  }

  /** Events without a pitch and without an undefined spacer. */
  predicate AllLiteral(evs: seq<Event>) {
    forall i :: 0 <= i < |evs| ==> !IsPitched(evs[i]) && !UndefinedSpacerEvent(evs[i])
  }

  /** The literals of such events, concatenated in order. */
  function Literals(evs: seq<Event>): string
    requires AllLiteral(evs)
  {
    if |evs| == 0 then "" else LiteralText(evs[0]) + Literals(evs[1..])
  }

  /**
   * Events without a pitch and without an undefined spacer always encode, from
   * any clef, to their literals copied in order.
   */
  lemma {:induction false} LiteralEventsEncode(evs: seq<Event>, clef: Option<Clef>)
    requires AllLiteral(evs)
    ensures EncodeFrom(evs, clef) == Ok(Literals(evs))
  {
    if |evs| > 0 {
      assert AllLiteral(evs[1..]) by {
        assert forall i :: 0 <= i < |evs[1..]| ==> evs[1..][i] == evs[i + 1];
      }
      LiteralEventsEncode(evs[1..], NextClef(evs[0], clef));
    }
  }

  /** The output of the loop on well-formed events is written in the Volpiano alphabet. */
  lemma {:induction false} EncodedIsVolpiano(evs: seq<Event>, clef: Option<Clef>)
    requires forall i :: 0 <= i < |evs| ==> WellFormed(evs[i])
    requires EncodeFrom(evs, clef).Ok?
    ensures IsVolpiano(EncodeFrom(evs, clef).value)
  {
    if |evs| > 0 {
      var head := Piece(evs[0], clef).value;
      var tail := EncodeFrom(evs[1..], NextClef(evs[0], clef)).value;
      EncodedIsVolpiano(evs[1..], NextClef(evs[0], clef));
      assert IsVolpiano(head) by {
        if IsPitched(evs[0]) {
          PitchedPiece(evs[0], clef.value);
        }
      }
      assert EncodeFrom(evs, clef).value == head + tail;
    }
  }

  /** What one pass of the loop below keeps: the fold still to run after the text written so far. */
  lemma LoopStep(events: seq<Event>, i: nat, volpiano: string, clef: Option<Clef>)
    requires i < |events|
    requires clef == ClefAfter(events[..i], None)
    requires Encode(events) == Concat(Ok(volpiano), EncodeFrom(events[i..], clef))
    ensures NextClef(events[i], clef) == ClefAfter(events[..i + 1], None)
    ensures Piece(events[i], clef).Err? ==> Encode(events) == Err(Piece(events[i], clef).error)
    ensures Piece(events[i], clef).Ok? ==>
              Encode(events) == Concat(Ok(volpiano + Piece(events[i], clef).value), EncodeFrom(events[i + 1..], NextClef(events[i], clef)))
  {
    assert events[..i + 1][..i] == events[..i];
    assert events[i..][1..] == events[i + 1..];
    var piece := Piece(events[i], clef);
    var rest := EncodeFrom(events[i + 1..], NextClef(events[i], clef));
    if piece.Ok? && rest.Ok? {
      assert volpiano + (piece.value + rest.value) == (volpiano + piece.value) + rest.value;
    }
  }

  /**
   * `_convert_music_events_to_volpiano` as the source writes it: one pass over
   * the events, updating the current clef and appending to the output, and
   * returning at the first event that fails.
   */
  method ConvertMusicEvents(events: seq<Event>) returns (r: Result<string, EncodeError>)
    ensures r == Encode(events)
    ensures r.Ok? <==> forall i :: 0 <= i < |events| ==> PieceAt(events, i, None).Ok?
  {
    var volpiano := "";
    var currentClef: Option<Clef> := None;
    var i := 0;
    assert events[i..] == events;
    if Encode(events).Ok? {
      assert volpiano + Encode(events).value == Encode(events).value;
    }
    while i < |events|
      invariant 0 <= i <= |events|
      invariant currentClef == ClefAfter(events[..i], None)
      invariant Encode(events) == Concat(Ok(volpiano), EncodeFrom(events[i..], currentClef))
    {
      var event := events[i];
      var piece: Result<string, EncodeError>;
      var nextClef := currentClef;
      match event {
        case ClefEvent(c) =>
          nextClef := Some(c);
          piece := Ok(ClefSymbol);
        case BarlineEvent(v) =>
          piece := Ok(v);
        case BoundaryEvent(v) =>
          piece := Ok(v);
        case SpacerEvent(v) =>
          piece := if v.Some? then Ok(v.value) else Err(UndefinedSpacer);
        case _ =>
          if currentClef.None? {
            piece := Err(MissingClef);
          } else {
            var symbol := Resolver.PositionToVolpiano(event.position, currentClef.value, FlavourOf(event));
            piece := if symbol.Some? then Ok([symbol.value]) else Err(Unrepresentable(event.position, currentClef.value, FlavourOf(event)));
          }
          assert piece == Piece(event, currentClef);
      }
      assert piece == Piece(event, currentClef) && nextClef == NextClef(event, currentClef);
      LoopStep(events, i, volpiano, currentClef);
      if piece.Err? {
        EncodeIsPiecewise(events, None);
        return Err(piece.error);
      }
      volpiano := volpiano + piece.value;
      currentClef := nextClef;
      i := i + 1;
    }
    assert events[i..] == [];
    assert volpiano + "" == volpiano;
    EncodeIsPiecewise(events, None);
    r := Ok(volpiano);
  }

  /** The loop on one event followed by more, when both the event and the rest succeed. */
  lemma EncodeConsOk(e: Event, rest: seq<Event>, clef: Option<Clef>, head: string, tail: string)
    requires Piece(e, clef) == Ok(head)
    requires EncodeFrom(rest, NextClef(e, clef)) == Ok(tail)
    ensures EncodeFrom([e] + rest, clef) == Ok(head + tail)
  {
    assert ([e] + rest)[1..] == rest;
  }
}
