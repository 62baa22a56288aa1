/** The checks made on the board as a user sees it: the details shown in an
    open card, and the urgency cue on each card tagged "Urgent". Both report
    through soft checks and never stop early. */
module Ui {
  import opened Text
  import opened SoftAssertion

  /** What the open card shows: title, description text, label texts and
      the name of its column. */
  datatype Details = Details(title: string, description: string, labels: seq<string>, status: string)

  /** What the test expects to see in the open card. */
  datatype Expectation = Expectation(title: string, description: string, labelText: string, status: string)

  /** A card on the board as rendered: its visible text and its HTML. */
  datatype Tile = Tile(text: string, html: string)

  // ---------------------------------------------------------------------------
  // The details of one card

  /** The shown description with line breaks turned into spaces and the
      ends stripped. */
  function CleanDescription(description: string): string {
    Strip(ReplaceChar(description, '\n', ' '))
  }

  /** Python's `str(labels)` for a list of strings none of which needs
      escaping. */
  function ListText(labels: seq<string>): string {
    "[" + Join(seq(|labels|, i requires 0 <= i < |labels| => "'" + labels[i] + "'"), ", ") + "]"
  }

  function TitleMessage(expected: string, got: string): string {
    "[UI] Title Mismatch. Expected: '" + expected + "', Got: '" + got + "'"
  }

  function DescriptionMessage(expected: string, got: string): string {
    "[UI] Description Mismatch.\nExpected to contain: '" + expected + "'\nGot: '" + got + "'"
  }

  function LabelMessage(expected: string, labels: seq<string>): string {
    "[UI] Missing Label. Expected '" + expected + "' in " + ListText(labels)
  }

  function StatusMessage(expected: string, got: string): string {
    "[UI] Wrong Column. Expected '" + expected + "', Got: '" + got + "'"
  }

  /** The four checks of one detail comparison, in order: title equal,
      description contained, label present, column name contained. */
  function DetailChecks(actual: Details, expected: Expectation): seq<Assertion> {
    var clean := CleanDescription(actual.description);
    [ Assertion(actual.title == expected.title, TitleMessage(expected.title, actual.title)),
      Assertion(Contains(clean, expected.description), DescriptionMessage(expected.description, clean)),
      Assertion(expected.labelText in actual.labels, LabelMessage(expected.labelText, actual.labels)),
      Assertion(Contains(actual.status, expected.status), StatusMessage(expected.status, actual.status)) ]
  }

  /** A detail comparison logs one entry per failed check, in check order,
      and at most four. */
  lemma DetailFailures(actual: Details, expected: Expectation)
    ensures var clean := CleanDescription(actual.description);
            Recorded(DetailChecks(actual, expected))
            == (if actual.title == expected.title then [] else [Failure(TitleMessage(expected.title, actual.title))])
               + (if Contains(clean, expected.description) then [] else [Failure(DescriptionMessage(expected.description, clean))])
               + (if expected.labelText in actual.labels then [] else [Failure(LabelMessage(expected.labelText, actual.labels))])
               + (if Contains(actual.status, expected.status) then [] else [Failure(StatusMessage(expected.status, actual.status))])
    ensures |Recorded(DetailChecks(actual, expected))| <= 4
  {
    var calls := DetailChecks(actual, expected);
    RecordedFour(calls[0], calls[1], calls[2], calls[3]);
    assert calls == [calls[0], calls[1], calls[2], calls[3]];
  }

  /** The same, appended to whatever was logged before. */
  lemma DetailLog(log: seq<string>, actual: Details, expected: Expectation)
    ensures var clean := CleanDescription(actual.description);
            log + Recorded(DetailChecks(actual, expected))
            == log
               + (if actual.title == expected.title then [] else [Failure(TitleMessage(expected.title, actual.title))])
               + (if Contains(clean, expected.description) then [] else [Failure(DescriptionMessage(expected.description, clean))])
               + (if expected.labelText in actual.labels then [] else [Failure(LabelMessage(expected.labelText, actual.labels))])
               + (if Contains(actual.status, expected.status) then [] else [Failure(StatusMessage(expected.status, actual.status))])
  {
    DetailFailures(actual, expected);
    var clean := CleanDescription(actual.description);
    var t0 := if actual.title == expected.title then [] else [Failure(TitleMessage(expected.title, actual.title))];
    var t1 := if Contains(clean, expected.description) then [] else [Failure(DescriptionMessage(expected.description, clean))];
    var t2 := if expected.labelText in actual.labels then [] else [Failure(LabelMessage(expected.labelText, actual.labels))];
    var t3 := if Contains(actual.status, expected.status) then [] else [Failure(StatusMessage(expected.status, actual.status))];
    AppendAssoc(log, t0 + t1 + t2, t3);
    AppendAssoc(log, t0 + t1, t2);
    AppendAssoc(log, t0, t1);
  }

  /** A detail comparison logs nothing exactly when all four checks hold. */
  lemma DetailsPass(actual: Details, expected: Expectation)
    ensures Recorded(DetailChecks(actual, expected)) == [] <==>
              && actual.title == expected.title
              && Contains(CleanDescription(actual.description), expected.description)
              && expected.labelText in actual.labels
              && Contains(actual.status, expected.status)
  {
    DetailFailures(actual, expected);
  }

  /** The column check is a substring test: "To Do" passes against a column
      named "To Do List". */
  lemma ColumnIsSubstring()
    ensures Contains("To Do List", "To Do")
  {
    assert "To Do List"[0..5] == "To Do";
    ContainsAt("To Do List", "To Do", 0);
  }

  /** A description merged from two lines passes the check against the same
      two lines joined by a space. */
  lemma MergedDescriptionPasses(first: string, second: string)
    requires first != [] && second != []
    requires '\n' !in first && '\n' !in second
    requires !IsSpace(first[0]) && !IsSpace(second[|second| - 1])
    ensures Contains(CleanDescription(first + "\n" + second), first + " " + second)
  {
    var joined := first + " " + second;
    ReplaceNewline(first, second);
    StripSpec(joined);
    StripKeeps(joined);
    ContainsSelf(joined);
  }

  lemma {:induction false} ReplaceNewline(first: string, second: string)
    requires '\n' !in first && '\n' !in second
    ensures ReplaceChar(first + "\n" + second, '\n', ' ') == first + " " + second
    decreases |first|
  {
    if first == [] {
      ReplaceUnchanged(second);
      assert "\n" + second == ['\n'] + second;
    } else {
      ReplaceNewline(first[1..], second);
      assert (first + "\n" + second)[1..] == first[1..] + "\n" + second;
    }
  }

  lemma {:induction false} ReplaceUnchanged(s: string)
    requires '\n' !in s
    ensures ReplaceChar(s, '\n', ' ') == s
  {
    if s != [] {
      ReplaceUnchanged(s[1..]);
    }
  }

  // ---------------------------------------------------------------------------
  // The urgency cue of each card

  /** A card looks urgent when its text says "Urgent" or its HTML says "red". */
  predicate VisuallyUrgent(tile: Tile) {
    Contains(tile.text, "Urgent") || Contains(tile.html, "red")
  }

  /** The first line of the card's text. */
  function TileTitle(tile: Tile): string {
    Split(tile.text, '\n')[0]
  }

  function UrgentMessage(title: string): string {
    "[UI] Card '" + title + "' is missing visual 'Urgent' indicator (Label/Text)."
  }

  /** The check made for one card. */
  function UrgentCheck(tile: Tile): Assertion {
    Assertion(VisuallyUrgent(tile), UrgentMessage(TileTitle(tile)))
  }

  /** One check per card, in order. */
  function UrgentChecks(tiles: seq<Tile>): seq<Assertion> {
    seq(|tiles|, k requires 0 <= k < |tiles| => UrgentCheck(tiles[k]))
  }

  /** The urgency checks log nothing exactly when every card shows the cue,
      and never more than one entry per card. */
  lemma UrgentFailures(tiles: seq<Tile>)
    ensures |Recorded(UrgentChecks(tiles))| <= |tiles|
    ensures Recorded(UrgentChecks(tiles)) == [] <==> forall k :: 0 <= k < |tiles| ==> VisuallyUrgent(tiles[k])
  {
    var calls := UrgentChecks(tiles);
    RecordedCount(calls);
    assert forall k :: 0 <= k < |tiles| ==> calls[k].condition == VisuallyUrgent(tiles[k]);
  }

  /** A card without the cue gets an entry naming the first line of its text. */
  lemma UrgentFlagged(tiles: seq<Tile>, k: nat)
    requires k < |tiles| && !VisuallyUrgent(tiles[k])
    ensures Failure(UrgentMessage(TileTitle(tiles[k]))) in Recorded(UrgentChecks(tiles))
  {
    var calls := UrgentChecks(tiles);
    var before, after := calls[..k + 1], calls[k + 1..];
    assert calls == before + after;
    RecordedAppend(before, after);
    assert before[..k] == calls[..k];
    assert Recorded(before) == Recorded(calls[..k]) + [Failure(UrgentMessage(TileTitle(tiles[k])))];
  }

  lemma UrgentSnoc(log: seq<string>, tiles: seq<Tile>, i: nat)
    requires i < |tiles|
    ensures log + Recorded(UrgentChecks(tiles[..i + 1]))
            == log + Recorded(UrgentChecks(tiles[..i])) + Recorded([UrgentCheck(tiles[i])])
  {
    assert UrgentChecks(tiles[..i + 1]) == UrgentChecks(tiles[..i]) + [UrgentCheck(tiles[i])];
    RecordedAppend(UrgentChecks(tiles[..i]), [UrgentCheck(tiles[i])]);
  }

  // ---------------------------------------------------------------------------
  // The verifier

  class UIVerifier {
    const softAssert: SoftAssert

    constructor (softAssert: SoftAssert)
      ensures this.softAssert == softAssert
    {
      this.softAssert := softAssert;
    }

    /** One urgency check per card, none at all for an empty list. */
    method VerifyUrgentCardsVisuals(cards: seq<Tile>)
      modifies softAssert
      ensures softAssert.errors == old(softAssert.errors) + Recorded(UrgentChecks(cards))
    {
      if cards == [] {
        return;
      }
      for i := 0 to |cards|
        invariant softAssert.errors == old(softAssert.errors) + Recorded(UrgentChecks(cards[..i]))
      {
        var card := cards[i];
        var title := TileTitle(card);
        var isVisuallyUrgent := Contains(card.text, "Urgent") || Contains(card.html, "red");
        softAssert.Check(isVisuallyUrgent, UrgentMessage(title));
        UrgentSnoc(old(softAssert.errors), cards, i);
      }
      assert cards[..|cards|] == cards;
    }

    /** The four detail checks, each made whatever the others found. */
    method VerifyCardDetails(actual: Details, expected: Expectation)
      modifies softAssert
      ensures softAssert.errors == old(softAssert.errors) + Recorded(DetailChecks(actual, expected))
    {
      softAssert.Check(actual.title == expected.title, TitleMessage(expected.title, actual.title));
      var cleanActualDesc := CleanDescription(actual.description);
      softAssert.Check(Contains(cleanActualDesc, expected.description), DescriptionMessage(expected.description, cleanActualDesc));
      softAssert.Check(expected.labelText in actual.labels, LabelMessage(expected.labelText, actual.labels));
      softAssert.Check(Contains(actual.status, expected.status), StatusMessage(expected.status, actual.status));
      DetailLog(old(softAssert.errors), actual, expected);
    }
  }
}
