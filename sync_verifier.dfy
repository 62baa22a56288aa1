/** The reconciliation of the expected cards against the cards found on the
    board. Every discrepancy becomes a failed soft check; no check stops the
    run, so every expected card and every board card is visited. */
module Sync {
  import opened Text
  import opened Cards
  import opened SoftAssertion

  datatype Option<T> = None | Some(value: T)

  /** One discrepancy the verifier reports. */
  datatype Finding =
    | TitleNotCleaned(found: string, expected: string)
    | MissingCard(title: string)
    | ContentMismatch(title: string, line: string)
    | LabelMismatch(title: string)
    | DirtyData(title: string)
    | Duplication(title: string, count: nat)

  /** The message each discrepancy is reported with. */
  function Message(f: Finding): string {
    match f
    case TitleNotCleaned(found, expected) =>
      "[BUG - TITLE NOT CLEANED] Found '" + found + "', expected clean '" + expected + "'."
    case MissingCard(title) =>
      "[MISSING CARD] '" + title + "' exists in Gmail but NOT in Trello."
    case ContentMismatch(title, line) =>
      "CONTENT MISMATCH in '" + title + "': Expected text '" + line + "' missing."
    case LabelMismatch(title) =>
      "LABEL MISMATCH: '" + title + "' expected 'Urgent' label."
    case DirtyData(title) =>
      "[BUG - DIRTY DATA] Found invalid card: '" + title + "'. Prefix should be removed."
    case Duplication(title, count) =>
      "[BUG - DUPLICATION] Card '" + title + "' appears " + Decimal(count) + " times!"
  }

  /** The log entries that a run of failed checks appends, in order. */
  function Logged(fs: seq<Finding>): seq<string> {
    seq(|fs|, i requires 0 <= i < |fs| => Failure(Message(fs[i])))
  }

  /** A single failure is logged as its own formatted message. */
  lemma LoggedOne(f: Finding)
    ensures Logged([f]) == [Failure(Message(f))]
  {
  }

  /** Logging two runs of failures one after the other, onto any log. */
  lemma LoggedAppend(log: seq<string>, a: seq<Finding>, b: seq<Finding>)
    ensures log + Logged(a + b) == log + Logged(a) + Logged(b)
  {
    assert Logged(a + b) == Logged(a) + Logged(b);
  }

  // ---------------------------------------------------------------------------
  // The lookup map of the board cards

  /** `{card.title: card for card in cards}`: a later card with a title
      replaces an earlier one under the same key. */
  function TitleMap(cards: seq<Card>): map<string, Card> {
    if cards == [] then map[]
    else
      var last := cards[|cards| - 1];
      TitleMap(cards[..|cards| - 1])[last.title := last]
  }

  /** The map has a key for every board title and for nothing else. */
  lemma {:induction false} TitleMapKeys(cards: seq<Card>, t: string)
    ensures t in TitleMap(cards) <==> t in CardTitles(cards)
  {
    if cards != [] {
      var init := cards[..|cards| - 1];
      TitleMapKeys(init, t);
      assert CardTitles(cards) == CardTitles(init) + [cards[|cards| - 1].title];
    }
  }

  /** Under a repeated title the map holds the last card with that title. */
  lemma {:induction false} TitleMapLast(cards: seq<Card>, i: nat)
    requires i < |cards|
    requires forall j :: i < j < |cards| ==> cards[j].title != cards[i].title
    ensures cards[i].title in TitleMap(cards) && TitleMap(cards)[cards[i].title] == cards[i]
  {
    if i < |cards| - 1 {
      var init := cards[..|cards| - 1];
      forall j | i < j < |init| ensures init[j].title != init[i].title {
        assert init[j] == cards[j];
      }
      TitleMapLast(init, i);
    }
  }

  /** The keys of the map in iteration order: each title once, in order of
      first appearance, as an insertion-ordered dictionary keeps them. */
  function KeyOrder(cards: seq<Card>): seq<string> {
    Dedup(CardTitles(cards))
  }

  // ---------------------------------------------------------------------------
  // A missing card

  /** `sync_verifier.py` line 51: a board title that contains the expected
      title and still says "Task" or "Meeting" (compared case-sensitively). */
  predicate Uncleaned(found: string, title: string) {
    Contains(found, title) && (Contains(found, "Task") || Contains(found, "Meeting"))
  }

  /** The position of the first board title that is an uncleaned form of
      `title`, if there is one. */
  function FirstUncleaned(keys: seq<string>, title: string): (r: Option<nat>)
    ensures r.Some? ==> r.value < |keys| && Uncleaned(keys[r.value], title)
    ensures r.Some? ==> forall j :: 0 <= j < r.value ==> !Uncleaned(keys[j], title)
    ensures r.None? ==> forall j :: 0 <= j < |keys| ==> !Uncleaned(keys[j], title)
    decreases |keys|
  {
    if keys == [] then None
    else if Uncleaned(keys[0], title) then Some(0)
    else
      match FirstUncleaned(keys[1..], title)
      case Some(j) => Some(j + 1)
      case None => None
  }

  /** The one failure for an expected card absent from the map: the first
      uncleaned board title if there is one, otherwise a missing card. */
  function MissingFinding(keys: seq<string>, title: string): (f: Finding)
    ensures f.TitleNotCleaned? <==> exists j :: 0 <= j < |keys| && Uncleaned(keys[j], title)
    ensures f.TitleNotCleaned? ==> f.expected == title && f.found in keys && Uncleaned(f.found, title)
    ensures f.MissingCard? ==> f.title == title
  {
    match FirstUncleaned(keys, title)
    case Some(j) => TitleNotCleaned(keys[j], title)
    case None => MissingCard(title)
  }

  // ---------------------------------------------------------------------------
  // Content and labels of a card that is present

  /** `[l.strip() for l in lines if l.strip()]`. */
  function StrippedLines(lines: seq<string>): seq<string> {
    if lines == [] then []
    else
      var l := Strip(lines[|lines| - 1]);
      StrippedLines(lines[..|lines| - 1]) + (if l != [] then [l] else [])
  }

  /** The lines of a description the board card must contain. */
  function ExpectedLines(description: string): seq<string> {
    StrippedLines(Split(description, '\n'))
  }

  lemma {:induction false} StrippedLinesSpec(s: string, lines: seq<string>)
    requires forall k :: 0 <= k < |lines| ==> Contains(s, lines[k])
    ensures forall k :: 0 <= k < |StrippedLines(lines)| ==>
              var l := StrippedLines(lines)[k];
              l != [] && !IsSpace(l[0]) && !IsSpace(l[|l| - 1]) && Contains(s, l)
  {
    if lines != [] {
      var init, last := lines[..|lines| - 1], lines[|lines| - 1];
      StrippedLinesSpec(s, init);
      StripSpec(last);
      ContainsTransitive(s, last, Strip(last));
      var r := StrippedLines(lines);
      forall k | 0 <= k < |StrippedLines(init)| ensures r[k] == StrippedLines(init)[k] { }
    }
  }

  /** Every expected line is non-empty, carries no surrounding whitespace and
      is part of the description it comes from. */
  lemma ExpectedLinesSpec(description: string)
    ensures forall k :: 0 <= k < |ExpectedLines(description)| ==>
              var l := ExpectedLines(description)[k];
              l != [] && !IsSpace(l[0]) && !IsSpace(l[|l| - 1]) && Contains(description, l)
  {
    SplitPiecesContained(description, '\n');
    StrippedLinesSpec(description, Split(description, '\n'));
  }

  /** Every line stripped, blank ones included. */
  function Strips(lines: seq<string>): seq<string> {
    seq(|lines|, k requires 0 <= k < |lines| => Strip(lines[k]))
  }

  /** `StrippedLines` keeps the strip of every non-blank line, as often as
      it occurs, and nothing else: a non-empty string occurs in it as often
      as it is the strip of a line. */
  lemma {:induction false} StrippedLinesCount(lines: seq<string>, l: string)
    ensures Count(StrippedLines(lines), l) == if l == [] then 0 else Count(Strips(lines), l)
  {
    if lines != [] {
      var init, last := lines[..|lines| - 1], lines[|lines| - 1];
      StrippedLinesCount(init, l);
      CountAppend(StrippedLines(init), if Strip(last) != [] then [Strip(last)] else [], l);
      StripsSnoc(lines);
    }
  }

  /** `StrippedLines` has one entry per non-blank line. */
  lemma {:induction false} StrippedLinesLength(lines: seq<string>)
    ensures |StrippedLines(lines)| == |lines| - Count(Strips(lines), [])
  {
    if lines != [] {
      StrippedLinesLength(lines[..|lines| - 1]);
      StripsSnoc(lines);
    }
  }

  lemma StripsSnoc(lines: seq<string>)
    requires lines != []
    ensures Strips(lines)[..|lines| - 1] == Strips(lines[..|lines| - 1])
  {
  }

  /** No non-blank line is dropped. */
  lemma StrippedLinesComplete(lines: seq<string>, k: nat)
    requires k < |lines| && Strip(lines[k]) != []
    ensures Strip(lines[k]) in StrippedLines(lines)
  {
    var l := Strip(lines[k]);
    StrippedLinesCount(lines, l);
    assert Strips(lines)[k] == l;
    CountPositive(Strips(lines), l);
    CountPositive(StrippedLines(lines), l);
  }

  /** Every non-blank line of the description is expected, stripped, once
      per occurrence; blank lines are not. */
  lemma ExpectedLinesCount(description: string, l: string)
    ensures var pieces := Split(description, '\n');
            && Count(ExpectedLines(description), l) == (if l == [] then 0 else Count(Strips(pieces), l))
            && |ExpectedLines(description)| == |pieces| - Count(Strips(pieces), [])
            && forall k :: 0 <= k < |pieces| && Strip(pieces[k]) != [] ==> Strip(pieces[k]) in ExpectedLines(description)
  {
    var pieces := Split(description, '\n');
    StrippedLinesCount(pieces, l);
    StrippedLinesLength(pieces);
    forall k | 0 <= k < |pieces| && Strip(pieces[k]) != [] ensures Strip(pieces[k]) in ExpectedLines(description) {
      StrippedLinesComplete(pieces, k);
    }
  }

  /** One failure per expected line that the board description lacks. */
  function LineFindings(title: string, lines: seq<string>, description: string): seq<Finding> {
    if lines == [] then []
    else
      var line := lines[|lines| - 1];
      LineFindings(title, lines[..|lines| - 1], description)
        + (if Contains(description, line) then [] else [ContentMismatch(title, line)])
  }

  /** The line failures name only lines the description lacks, and every
      such line is named (`LineFindingsCount` counts them). */
  lemma {:induction false} LineFindingsSpec(title: string, lines: seq<string>, description: string)
    ensures var fs := LineFindings(title, lines, description);
            && |fs| <= |lines|
            && (forall k :: 0 <= k < |fs| ==>
                  fs[k].ContentMismatch? && fs[k].title == title
                  && fs[k].line in lines && !Contains(description, fs[k].line))
            && (forall l :: l in lines && !Contains(description, l) ==> ContentMismatch(title, l) in fs)
            && (fs == [] <==> forall k :: 0 <= k < |lines| ==> Contains(description, lines[k]))
  {
    if lines != [] {
      var init, last := lines[..|lines| - 1], lines[|lines| - 1];
      LineFindingsSpec(title, init, description);
      var pre := LineFindings(title, init, description);
      var fs := LineFindings(title, lines, description);
      assert lines == init + [last];
      forall k | 0 <= k < |fs|
        ensures fs[k].ContentMismatch? && fs[k].title == title
                && fs[k].line in lines && !Contains(description, fs[k].line)
      {
        if k < |pre| {
          assert fs[k] == pre[k];
        }
      }
      forall l | l in lines && !Contains(description, l) ensures ContentMismatch(title, l) in fs {
        if l in init {
          assert ContentMismatch(title, l) in pre;
        }
      }
      if fs == [] {
        forall k | 0 <= k < |lines| ensures Contains(description, lines[k]) {
          assert lines[k] in lines;
        }
      }
    }
  }

  /** For each line, whether the description contains it. */
  function Found(lines: seq<string>, description: string): seq<bool> {
    seq(|lines|, k requires 0 <= k < |lines| => Contains(description, lines[k]))
  }

  /** A line the description lacks is reported once per occurrence in the
      list, a line it contains never, and there is one failure per line
      that is not found. */
  lemma {:induction false} LineFindingsCount(title: string, lines: seq<string>, description: string, l: string)
    ensures Count(LineFindings(title, lines, description), ContentMismatch(title, l))
            == if Contains(description, l) then 0 else Count(lines, l)
    ensures |LineFindings(title, lines, description)| == Count(Found(lines, description), false)
  {
    if lines != [] {
      var init, last := lines[..|lines| - 1], lines[|lines| - 1];
      LineFindingsCount(title, init, description, l);
      CountAppend(LineFindings(title, init, description),
                  if Contains(description, last) then [] else [ContentMismatch(title, last)],
                  ContentMismatch(title, l));
      assert Found(lines, description)[..|lines| - 1] == Found(init, description);
    }
  }

  /** One more line appends its own failure, if any, to the log. */
  lemma LineSnoc(log: seq<string>, title: string, lines: seq<string>, k: nat, description: string)
    requires k < |lines|
    ensures log + Logged(LineFindings(title, lines[..k + 1], description))
            == log + Logged(LineFindings(title, lines[..k], description))
               + (if Contains(description, lines[k]) then [] else [Failure(Message(ContentMismatch(title, lines[k])))])
  {
    var f: seq<Finding> := if Contains(description, lines[k]) then [] else [ContentMismatch(title, lines[k])];
    assert Logged(f) == if Contains(description, lines[k]) then [] else [Failure(Message(ContentMismatch(title, lines[k])))];
    assert lines[..k + 1][..k] == lines[..k];
    LoggedAppend(log, LineFindings(title, lines[..k], description),
                 if Contains(description, lines[k]) then [] else [ContentMismatch(title, lines[k])]);
  }

  function ContentFindings(expected: Card, actual: Card): seq<Finding> {
    LineFindings(expected.title, ExpectedLines(expected.description), actual.description)
  }

  /** A board description that contains the whole expected description
      yields no content failure. */
  lemma ContentCovered(expected: Card, actual: Card)
    requires Contains(actual.description, expected.description)
    ensures ContentFindings(expected, actual) == []
  {
    var lines := ExpectedLines(expected.description);
    ExpectedLinesSpec(expected.description);
    forall k | 0 <= k < |lines| ensures Contains(actual.description, lines[k]) {
      ContainsTransitive(actual.description, expected.description, lines[k]);
    }
    LineFindingsSpec(expected.title, lines, actual.description);
  }

  /** Each non-blank line of the expected description that the board
      description lacks is reported, stripped, once per occurrence, and no
      other line is. */
  lemma ContentCount(expected: Card, actual: Card, l: string)
    ensures Count(ContentFindings(expected, actual), ContentMismatch(expected.title, l))
            == if l == [] || Contains(actual.description, l) then 0
               else Count(Strips(Split(expected.description, '\n')), l)
  {
    ExpectedLinesCount(expected.description, l);
    LineFindingsCount(expected.title, ExpectedLines(expected.description), actual.description, l);
    if l == [] {
      ContainsEmpty(actual.description);
    }
  }

  /** A blank expected description yields no content failure. */
  lemma BlankDescription(expected: Card, actual: Card)
    requires forall i :: 0 <= i < |expected.description| ==> IsSpace(expected.description[i])
    ensures ContentFindings(expected, actual) == []
  {
    var lines := ExpectedLines(expected.description);
    ExpectedLinesSpec(expected.description);
    if lines != [] {
      var l := lines[0];
      var j := ContainsWitness(expected.description, l);
      assert false;
    }
  }

  /** The label failure: only an expected "Urgent" label is checked. */
  function LabelFindings(expected: Card, actual: Card): (fs: seq<Finding>)
    ensures |fs| <= 1
    ensures fs != [] <==> "Urgent" in expected.labels && "Urgent" !in actual.labels
    ensures forall k :: 0 <= k < |fs| ==> fs[k] == LabelMismatch(expected.title)
  {
    if "Urgent" in expected.labels && "Urgent" !in actual.labels then [LabelMismatch(expected.title)]
    else []
  }

  // ---------------------------------------------------------------------------
  // Step 1: existence and content

  /** The failures for one expected card. */
  function CardFindings(expected: Card, actualMap: map<string, Card>, keys: seq<string>): seq<Finding> {
    if expected.title !in actualMap then [MissingFinding(keys, expected.title)]
    else ContentFindings(expected, actualMap[expected.title]) + LabelFindings(expected, actualMap[expected.title])
  }

  /** The failures of step 1, card by card in the order of the expected list. */
  function ExistenceFindings(expected: seq<Card>, actualMap: map<string, Card>, keys: seq<string>): seq<Finding> {
    if expected == [] then []
    else
      ExistenceFindings(expected[..|expected| - 1], actualMap, keys)
        + CardFindings(expected[|expected| - 1], actualMap, keys)
  }

  /** One more expected card appends its own failures to the log. */
  lemma ExistenceSnoc(log: seq<string>, expected: seq<Card>, i: nat, actualMap: map<string, Card>, keys: seq<string>)
    requires i < |expected|
    ensures log + Logged(ExistenceFindings(expected[..i + 1], actualMap, keys))
            == log + Logged(ExistenceFindings(expected[..i], actualMap, keys)) + Logged(CardFindings(expected[i], actualMap, keys))
  {
    assert expected[..i + 1][..i] == expected[..i];
    LoggedAppend(log, ExistenceFindings(expected[..i], actualMap, keys), CardFindings(expected[i], actualMap, keys));
  }

  predicate IsMissingKind(f: Finding) {
    f.TitleNotCleaned? || f.MissingCard?
  }

  function CountMissingKind(fs: seq<Finding>): nat {
    if fs == [] then 0
    else CountMissingKind(fs[..|fs| - 1]) + (if IsMissingKind(fs[|fs| - 1]) then 1 else 0)
  }

  lemma {:induction false} CountMissingKindAppend(a: seq<Finding>, b: seq<Finding>)
    ensures CountMissingKind(a + b) == CountMissingKind(a) + CountMissingKind(b)
    decreases |b|
  {
    if b == [] {
      assert a + b == a;
    } else {
      CountMissingKindAppend(a, b[..|b| - 1]);
      assert (a + b)[..|a + b| - 1] == a + b[..|b| - 1];
    }
  }

  /** The number of expected cards whose title the board lacks. */
  function CountAbsent(expected: seq<Card>, actualMap: map<string, Card>): nat {
    if expected == [] then 0
    else CountAbsent(expected[..|expected| - 1], actualMap) + (if expected[|expected| - 1].title !in actualMap then 1 else 0)
  }

  /** Each expected card absent from the board yields exactly one failure of
      the missing kind, and a present card yields none. */
  lemma {:induction false} ExistenceMissingCount(expected: seq<Card>, actualMap: map<string, Card>, keys: seq<string>)
    ensures CountMissingKind(ExistenceFindings(expected, actualMap, keys)) == CountAbsent(expected, actualMap)
  {
    if expected != [] {
      var init, e := expected[..|expected| - 1], expected[|expected| - 1];
      ExistenceMissingCount(init, actualMap, keys);
      CountMissingKindAppend(ExistenceFindings(init, actualMap, keys), CardFindings(e, actualMap, keys));
      CardMissingCount(e, actualMap, keys);
    }
  }

  lemma CardMissingCount(e: Card, actualMap: map<string, Card>, keys: seq<string>)
    ensures CountMissingKind(CardFindings(e, actualMap, keys)) == if e.title !in actualMap then 1 else 0
  {
    if e.title !in actualMap {
      assert CardFindings(e, actualMap, keys) == [] + [MissingFinding(keys, e.title)];
    } else {
      var actual := actualMap[e.title];
      var content := ContentFindings(e, actual);
      LineFindingsSpec(e.title, ExpectedLines(e.description), actual.description);
      CountMissingKindAppend(content, LabelFindings(e, actual));
      NoMissingKind(content);
      assert LabelFindings(e, actual) == [] || LabelFindings(e, actual) == [] + [LabelMismatch(e.title)];
    }
  }

  lemma {:induction false} NoMissingKind(fs: seq<Finding>)
    requires forall k :: 0 <= k < |fs| ==> fs[k].ContentMismatch?
    ensures CountMissingKind(fs) == 0
  {
    if fs != [] {
      NoMissingKind(fs[..|fs| - 1]);
    }
  }

  /** Checking a list of cards against a board that holds exactly those cards
      reports nothing. */
  lemma {:induction false} AgainstItself(expected: seq<Card>, cards: seq<Card>)
    requires Distinct(CardTitles(cards))
    requires forall k :: 0 <= k < |expected| ==> expected[k] in cards
    ensures ExistenceFindings(expected, TitleMap(cards), KeyOrder(cards)) == []
  {
    if expected != [] {
      var init, e := expected[..|expected| - 1], expected[|expected| - 1];
      AgainstItself(init, cards);
      var i :| 0 <= i < |cards| && cards[i] == e;
      forall j | i < j < |cards| ensures cards[j].title != cards[i].title {
        assert CardTitles(cards)[j] != CardTitles(cards)[i];
      }
      TitleMapLast(cards, i);
      ContainsSelf(e.description);
      ContentCovered(e, e);
    }
  }

  lemma SplitTwoLines()
    ensures Split("A\nB", '\n') == ["A", "B"]
  {
    assert "A\nB" == "A" + ['\n'] + "B";
    SplitWithout("A", "B", '\n');
    SplitWithout("B", "", '\n');
  }

  /** The expected lines of "A\nB" are "A" and "B". */
  lemma TwoLines()
    ensures ExpectedLines("A\nB") == ["A", "B"]
  {
    SplitTwoLines();
    StripKeeps("A");
    StripKeeps("B");
    assert ["A", "B"][..1] == ["A"];
    assert ["A"][..0] == [];
    assert StrippedLines(["A"]) == StrippedLines([]) + ["A"];
    assert StrippedLines(["A", "B"]) == StrippedLines(["A"]) + ["B"];
  }

  /** Both lines are found in "A B extra". */
  lemma TwoLinesFound()
    ensures LineFindings("X", ["A", "B"], "A B extra") == []
  {
    var d := "A B extra";
    assert d[0..1] == "A";
    ContainsAt(d, "A", 0);
    assert d[2..3] == "B";
    ContainsAt(d, "B", 2);
    LineFindingsSpec("X", ["A", "B"], d);
  }

  /** An expected card with description "A\nB" and labels New and Urgent,
      against a board card "A B extra" labelled New only: both lines are
      found, and the one failure is the missing Urgent label. */
  lemma LinesFoundLabelMissing()
    ensures var expected := Card("X", "A\nB", ["New", "Urgent"]);
            var actual := Card("X", "A B extra", ["New"]);
            CardFindings(expected, map["X" := actual], ["X"]) == [LabelMismatch("X")]
  {
    TwoLines();
    TwoLinesFound();
  }

  // ---------------------------------------------------------------------------
  // Step 2: integrity of the board

  /** `sync_verifier.py` line 36: a board title that still starts with a
      prefix, in any case. */
  predicate IsDirty(title: string) {
    StartsWithIgnoringCase(title, "task:") || StartsWithIgnoringCase(title, "meeting:")
  }

  /** The failures for one board card; `titles` is the list of all board
      titles. */
  function CardIntegrity(card: Card, titles: seq<string>): seq<Finding> {
    (if IsDirty(card.title) then [DirtyData(card.title)] else [])
      + (if Count(titles, card.title) > 1 then [Duplication(card.title, Count(titles, card.title))] else [])
  }

  /** The failures of step 2, card by card in board order. */
  function IntegrityFindings(cards: seq<Card>, titles: seq<string>): seq<Finding> {
    if cards == [] then []
    else IntegrityFindings(cards[..|cards| - 1], titles) + CardIntegrity(cards[|cards| - 1], titles)
  }

  /** One more board card appends its own failures to the log. */
  lemma IntegritySnoc(log: seq<string>, cards: seq<Card>, i: nat, titles: seq<string>)
    requires i < |cards|
    ensures log + Logged(IntegrityFindings(cards[..i + 1], titles))
            == log + Logged(IntegrityFindings(cards[..i], titles)) + Logged(CardIntegrity(cards[i], titles))
  {
    assert cards[..i + 1][..i] == cards[..i];
    LoggedAppend(log, IntegrityFindings(cards[..i], titles), CardIntegrity(cards[i], titles));
  }

  lemma CardIntegrityCounts(card: Card, titles: seq<string>, t: string)
    ensures var n := Count(titles, t);
            Count(CardIntegrity(card, titles), Duplication(t, n)) == if n > 1 && card.title == t then 1 else 0
    ensures Count(CardIntegrity(card, titles), DirtyData(t)) == if IsDirty(t) && card.title == t then 1 else 0
  {
    var dirty: seq<Finding> := if IsDirty(card.title) then [DirtyData(card.title)] else [];
    var dup: seq<Finding> := if Count(titles, card.title) > 1 then [Duplication(card.title, Count(titles, card.title))] else [];
    CountAppend(dirty, dup, Duplication(t, Count(titles, t)));
    CountAppend(dirty, dup, DirtyData(t));
    assert dirty == [] || dirty == [] + [DirtyData(card.title)];
    assert dup == [] || dup == [] + [Duplication(card.title, Count(titles, card.title))];
  }

  lemma {:induction false} IntegrityCounts(cards: seq<Card>, titles: seq<string>, t: string)
    ensures var fs := IntegrityFindings(cards, titles);
            var n := Count(titles, t);
            && Count(fs, Duplication(t, n)) == (if n > 1 then Count(CardTitles(cards), t) else 0)
            && Count(fs, DirtyData(t)) == (if IsDirty(t) then Count(CardTitles(cards), t) else 0)
  {
    if cards != [] {
      var init, card := cards[..|cards| - 1], cards[|cards| - 1];
      IntegrityCounts(init, titles, t);
      var fs0 := IntegrityFindings(init, titles);
      CountAppend(fs0, CardIntegrity(card, titles), Duplication(t, Count(titles, t)));
      CountAppend(fs0, CardIntegrity(card, titles), DirtyData(t));
      CardIntegrityCounts(card, titles, t);
      assert CardTitles(cards) == CardTitles(init) + [card.title];
      CountAppend(CardTitles(init), [card.title], t);
    }
  }

  /** A title on n > 1 board cards is reported as duplicated exactly n times,
      with the count n; a title on one card is never reported as duplicated.
      Each board card with a prefixed title is reported as dirty once. */
  lemma IntegrityReport(cards: seq<Card>, t: string)
    ensures var fs := IntegrityFindings(cards, CardTitles(cards));
            var n := Count(CardTitles(cards), t);
            && Count(fs, Duplication(t, n)) == (if n > 1 then n else 0)
            && Count(fs, DirtyData(t)) == (if IsDirty(t) then n else 0)
  {
    IntegrityCounts(cards, CardTitles(cards), t);
  }

  /** What a step-2 failure may be: a board card's title that carries a
      prefix, or a board card's title that occurs more than once in
      `titles`, reported with that count. */
  predicate IntegrityCause(f: Finding, cards: seq<Card>, titles: seq<string>) {
    || (f.DirtyData? && f.title in CardTitles(cards) && IsDirty(f.title))
    || (f.Duplication? && f.title in CardTitles(cards) && f.count == Count(titles, f.title) && f.count > 1)
  }

  /** Step 2 reports nothing else. */
  lemma {:induction false} IntegrityShape(cards: seq<Card>, titles: seq<string>)
    ensures forall k :: 0 <= k < |IntegrityFindings(cards, titles)| ==>
              IntegrityCause(IntegrityFindings(cards, titles)[k], cards, titles)
  {
    if cards != [] {
      var init, card := cards[..|cards| - 1], cards[|cards| - 1];
      IntegrityShape(init, titles);
      var pre, fs := IntegrityFindings(init, titles), IntegrityFindings(cards, titles);
      assert CardTitles(cards) == CardTitles(init) + [card.title];
      forall k | 0 <= k < |fs| ensures IntegrityCause(fs[k], cards, titles) {
        if k < |pre| {
          assert fs[k] == pre[k];
          assert IntegrityCause(pre[k], init, titles);
        } else {
          var c := CardIntegrity(card, titles);
          assert fs[k] == c[k - |pre|];
          assert card.title == CardTitles(cards)[|cards| - 1];
        }
      }
    }
  }

  /** A board whose titles are distinct and free of prefixes passes step 2. */
  lemma {:induction false} CleanBoard(cards: seq<Card>, titles: seq<string>)
    requires Distinct(titles)
    requires forall k :: 0 <= k < |cards| ==> !IsDirty(cards[k].title)
    ensures IntegrityFindings(cards, titles) == []
  {
    if cards != [] {
      var init := cards[..|cards| - 1];
      assert forall k :: 0 <= k < |init| ==> init[k] == cards[k];
      CleanBoard(init, titles);
      CountDistinct(titles, cards[|cards| - 1].title);
    }
  }

  // ---------------------------------------------------------------------------
  // The verifier

  class SyncVerifier {
    const expectedCards: seq<Card>
    const actualCards: seq<Card>
    const actualCardsMap: map<string, Card>
    /** The keys of `actualCardsMap` in the order the dictionary yields them. */
    const actualKeys: seq<string>
    const softAssert: SoftAssert

    constructor (expectedCards: seq<Card>, actualCards: seq<Card>, softAssert: SoftAssert)
      ensures this.expectedCards == expectedCards && this.actualCards == actualCards
      ensures actualCardsMap == TitleMap(actualCards) && actualKeys == KeyOrder(actualCards)
      ensures this.softAssert == softAssert
    {
      this.expectedCards := expectedCards;
      this.actualCards := actualCards;
      this.actualCardsMap := TitleMap(actualCards);
      this.actualKeys := KeyOrder(actualCards);
      this.softAssert := softAssert;
    }

    /** Step 1: every expected card is looked up; an absent one is reported
        once, a present one has its content and labels checked. */
    method VerifyCardsExistenceAndContent()
      modifies softAssert
      ensures softAssert.errors == old(softAssert.errors) + Logged(ExistenceFindings(expectedCards, actualCardsMap, actualKeys))
    {
      for i := 0 to |expectedCards|
        invariant softAssert.errors == old(softAssert.errors) + Logged(ExistenceFindings(expectedCards[..i], actualCardsMap, actualKeys))
      {
        CheckExpectedCard(expectedCards[i]);
        ExistenceSnoc(old(softAssert.errors), expectedCards, i, actualCardsMap, actualKeys);
      }
      assert expectedCards[..|expectedCards|] == expectedCards;
    }

    /** The body of the loop of step 1 (`sync_verifier.py` lines 21-27) for one expected card. */
    method CheckExpectedCard(expected: Card)
      modifies softAssert
      ensures softAssert.errors == old(softAssert.errors) + Logged(CardFindings(expected, actualCardsMap, actualKeys))
    {
      if expected.title !in actualCardsMap {
        HandleMissingCard(expected);
        return;
      }
      var actual := actualCardsMap[expected.title];
      VerifyContent(expected, actual);
      VerifyLabels(expected, actual);
      LoggedAppend(old(softAssert.errors), ContentFindings(expected, actual), LabelFindings(expected, actual));
    }

    /** Step 2: every board card is checked for a leftover prefix and for a
        title it shares with other board cards. */
    method VerifyBoardIntegrity()
      modifies softAssert
      ensures softAssert.errors == old(softAssert.errors) + Logged(IntegrityFindings(actualCards, CardTitles(actualCards)))
    {
      var titlesList := CardTitles(actualCards);
      for i := 0 to |actualCards|
        invariant softAssert.errors == old(softAssert.errors) + Logged(IntegrityFindings(actualCards[..i], titlesList))
      {
        CheckBoardCard(actualCards[i], titlesList);
        IntegritySnoc(old(softAssert.errors), actualCards, i, titlesList);
      }
      assert actualCards[..|actualCards|] == actualCards;
    }

    /** The body of the loop of step 2 (`sync_verifier.py` lines 35-43) for one board card. */
    method CheckBoardCard(card: Card, titlesList: seq<string>)
      modifies softAssert
      ensures softAssert.errors == old(softAssert.errors) + Logged(CardIntegrity(card, titlesList))
    {
      if IsDirty(card.title) {
        softAssert.Check(false, Message(DirtyData(card.title)));
        LoggedOne(DirtyData(card.title));
      }
      ghost var dirty: seq<Finding> := if IsDirty(card.title) then [DirtyData(card.title)] else [];
      if Count(titlesList, card.title) > 1 {
        softAssert.Check(false, Message(Duplication(card.title, Count(titlesList, card.title))));
        LoggedOne(Duplication(card.title, Count(titlesList, card.title)));
      }
      ghost var dup: seq<Finding> := if Count(titlesList, card.title) > 1 then [Duplication(card.title, Count(titlesList, card.title))] else [];
      LoggedAppend(old(softAssert.errors), dirty, dup);
    }

    /** The search of the board titles for an uncleaned form of the expected
        title, stopping at the first one; without one the card is missing. */
    method HandleMissingCard(expected: Card)
      modifies softAssert
      ensures softAssert.errors == old(softAssert.errors) + Logged([MissingFinding(actualKeys, expected.title)])
    {
      var foundDirty := false;
      for i := 0 to |actualKeys|
        invariant !foundDirty
        invariant softAssert.errors == old(softAssert.errors)
        invariant forall j :: 0 <= j < i ==> !Uncleaned(actualKeys[j], expected.title)
      {
        var actualTitle := actualKeys[i];
        if Uncleaned(actualTitle, expected.title) {
          assert FirstUncleaned(actualKeys, expected.title) == Some(i);
          softAssert.Check(false, Message(TitleNotCleaned(actualTitle, expected.title)));
          LoggedOne(TitleNotCleaned(actualTitle, expected.title));
          foundDirty := true;
          break;
        }
      }
      if !foundDirty {
        softAssert.Check(false, Message(MissingCard(expected.title)));
        LoggedOne(MissingCard(expected.title));
      }
    }

    /** Each non-blank stripped line of the expected description is checked
        against the board description. */
    method VerifyContent(expected: Card, actual: Card)
      modifies softAssert
      ensures softAssert.errors == old(softAssert.errors) + Logged(ContentFindings(expected, actual))
    {
      var expectedLines := ExpectedLines(expected.description);
      for k := 0 to |expectedLines|
        invariant softAssert.errors == old(softAssert.errors) + Logged(LineFindings(expected.title, expectedLines[..k], actual.description))
      {
        var line := expectedLines[k];
        softAssert.Check(Contains(actual.description, line), Message(ContentMismatch(expected.title, line)));
        LineSnoc(old(softAssert.errors), expected.title, expectedLines, k, actual.description);
      }
      assert expectedLines[..|expectedLines|] == expectedLines;
    }

    /** An expected "Urgent" label must be on the board card too. */
    method VerifyLabels(expected: Card, actual: Card)
      modifies softAssert
      ensures softAssert.errors == old(softAssert.errors) + Logged(LabelFindings(expected, actual))
    {
      if "Urgent" in expected.labels {
        softAssert.Check("Urgent" in actual.labels, Message(LabelMismatch(expected.title)));
        LoggedOne(LabelMismatch(expected.title));
      }
    }
  }
}
