# Expected-state reconciliation for an e-mail to board sync

This project models the reconciliation core of a test harness for a service
that turns e-mails into cards on a task board. The core has two halves.

- **The expectation builder.** `GmailClient.get_expected_cards` turns an
  ordered list of `{subject, body}` messages into the cards the sync should
  have produced:
  - subjects are normalised into titles;
  - messages without a title are dropped;
  - a body mentioning "urgent" marks its card Urgent;
  - messages sharing a title are merged into one card, in order of first
    appearance.
- **The verifiers.** `SyncVerifier` compares the expected cards with the
  cards read from the board. `UIVerifier` compares what the board shows with
  what a test expects. Both report every discrepancy through a `SoftAssert`
  log and never stop early; `assert_all` turns a non-empty log into a single
  failure.

Files, one Dafny module each:

- `text.dfy` (`Text`): the Python string and list operations the core uses,
  on ASCII text: `isspace`, `lower`, `in`, `strip`, `split()` and
  `" ".join`, `split(sep)`, `replace`, `str(int)`, `list.count`, and the
  key order of an insertion-ordered dictionary.
- `cards.dfy` (`Cards`): the card record as a value, and the mutable
  `CardModal` class with `add_label`.
- `soft_assert.dfy` (`SoftAssertion`): the `SoftAssert` class with its
  append-only `errors` log, `check` and `assert_all`.
- `gmail.dfy` (`Gmail`): title normalisation and urgency, as functions. The
  merge is first a function over the messages (`Merge`, `Process`,
  `ExpectedCards`), whose properties are proved as lemmas. It is then the
  source's loop over a dictionary of `CardModal` objects updated in place
  (`FillProcessed`, `GetExpectedCards`), proved equal to that function.
- `sync_verifier.dfy` (`Sync`): the `SyncVerifier` class. Each of its
  methods is proved to append to the log exactly the failures that a
  specification function (`ExistenceFindings`, `IntegrityFindings`,
  `ContentFindings`, `LabelFindings`, `MissingFinding`) lists, each with the
  source's exact message text. The lemmas then state what those lists
  contain.
- `ui_verifier.dfy` (`Ui`): the `UIVerifier` class. A board card is the
  pair of its visible text and its HTML (`Tile`), and an opened card is a
  four-field record (`Details`).

Three behaviours of the code that the model keeps, because a reader might
expect otherwise:

- **Normalisation is not idempotent.** `infra/clients/gmail_client.py:40`
  removes at most one leading `Task:`/`Meeting:` prefix, so
  "Task: Task: Foo" becomes "Task: Foo", and normalising that again gives
  "Foo". `Gmail.OnlyOnePrefixRemoved` proves this. Idempotence holds only
  when the first result carries no prefix
  (`Gmail.NormalizeIdempotentWithoutPrefix`).
- **The error message states only the count.**
  `infra/utils/soft_assert.py:44` raises an `AssertionError` whose message
  names only the number of failures. The newline-joined entries (line 39)
  go to a separate report attachment (line 42). `SoftAssertion.Outcome`
  keeps the two apart.
- **The builder keeps insertion order.** `infra/clients/gmail_client.py:76`
  returns `list(processed_cards.values())`, so the order of the expected
  cards is observable. The model keeps it: titles come in order of first
  appearance.

## Model

| member | source | states |
|---|---|---|
| Cards.WithLabel | infra/modals/cardModal.py:13-15 | after adding a label it is present; the old list is a prefix of the new one, which is at most one longer; an already present label changes nothing; a duplicate-free list stays duplicate-free |
| Cards.WithLabelIdempotent | infra/modals/cardModal.py:13-15 | adding the same label twice gives the same list as adding it once |
| Cards.CardModal.constructor | infra/modals/cardModal.py:4-11 | a record holds the title, description and labels it was built with |
| Cards.CardModal.AddLabel | infra/modals/cardModal.py:13-15 | in place: an absent label is appended at the end, a present one changes nothing, title and description are untouched |
| SoftAssertion.SoftAssert.constructor | infra/utils/soft_assert.py:8-9 | a new log is empty |
| SoftAssertion.SoftAssert.Check | infra/utils/soft_assert.py:11-20 | a true condition leaves the log as it was; a false one appends exactly "[FAILURE] " + message at the end, earlier entries untouched |
| SoftAssertion.Failure | infra/utils/soft_assert.py:19 | an entry is "[FAILURE] " followed by the message |
| SoftAssertion.RecordedAppend | infra/utils/soft_assert.py:18-20 | the log of two runs of checks is the log of the first followed by the log of the second (append-only, call order) |
| SoftAssertion.RecordedCount | infra/utils/soft_assert.py:9-20 | a run of checks logs exactly one entry per false condition, and nothing exactly when every condition holds |
| SoftAssertion.RecordedFour | infra/utils/soft_assert.py:18-20 | four consecutive checks log, in order, what each logs alone |
| SoftAssertion.SoftAssert.AssertAll | infra/utils/soft_assert.py:33-44 | passes exactly when the log is empty; otherwise raises with the count message and the newline-joined report; the log is not modified |
| SoftAssertion.Summary | infra/utils/soft_assert.py:44 | the raised message: "Soft Assert failed with N errors. Check Allure report or logs for details." |
| SoftAssertion.SummaryStatesCount | infra/utils/soft_assert.py:44 | the raised message contains the failure count in decimal, which reads back as the count |
| SoftAssertion.ReportLists | infra/utils/soft_assert.py:39 | the joined report splits back into the recorded entries, in order, when no entry holds a newline |
| Text.StripSpec | infra/clients/gmail_client.py:40 | `strip` keeps a block of its input with no whitespace at either end, and gives the empty string exactly for a blank input |
| Text.StripBlock | infra/clients/gmail_client.py:40 | `strip` removes exactly the maximal leading whitespace run and a trailing whitespace run: the input is those runs around the result |
| Text.CollapseCanonical | infra/clients/gmail_client.py:41 | `" ".join(s.split())` has no surrounding whitespace and single spaces between words |
| Text.CollapseWords | infra/clients/gmail_client.py:41 | collapsing keeps the words: `split()` of the collapsed string equals `split()` of the original |
| Text.CanonicalFixed | infra/clients/gmail_client.py:40-41 | stripping and collapsing leave such a string unchanged |
| Text.DedupSpec | infra/clients/gmail_client.py:31-74 | the key order of an insertion-ordered dictionary is duplicate-free, holds exactly the inserted keys, and keeps first insertions in order |
| Gmail.RemovePrefix | infra/clients/gmail_client.py:40 | a subject that starts with neither prefix, in any case, is left as it is |
| Gmail.RemoveTaskAnyCase | infra/clients/gmail_client.py:40 | "task:" in any letter case at position 0 is removed together with the whitespace after it |
| Gmail.RemoveMeetingAnyCase | infra/clients/gmail_client.py:40 | "meeting:" in any letter case at position 0 is removed together with the whitespace after it |
| Gmail.NormalizeTitle | infra/clients/gmail_client.py:40-41 | the title: one prefix removed, then stripped, then whitespace runs collapsed to single spaces |
| Gmail.NormalizeCanonical | infra/clients/gmail_client.py:40-41 | every normalised title has no surrounding whitespace and single spaces between words |
| Gmail.NormalizeFixed | infra/clients/gmail_client.py:40-41 | a canonical title without a prefix is its own normalisation |
| Gmail.NormalizeIdempotentWithoutPrefix | infra/clients/gmail_client.py:40-41 | normalising twice equals normalising once whenever the first result has no prefix |
| Gmail.NormalizeTo | infra/clients/gmail_client.py:40-41 | a subject whose prefix-free form is canonical normalises to that form |
| Gmail.RemoveTaskPrefix | infra/clients/gmail_client.py:40 | "Task: " followed by text that does not start with whitespace loses exactly the prefix |
| Gmail.NoPrefix | infra/clients/gmail_client.py:40 | a subject whose first letter starts neither prefix keeps everything |
| Gmail.OnlyOnePrefixRemoved | infra/clients/gmail_client.py:40 | "Task: Task: Foo" normalises to "Task: Foo" and that to "Foo": one prefix per pass, so not idempotent |
| Gmail.PrefixOnlyAtStart | infra/clients/gmail_client.py:40 | a prefix that is not at position 0 stays in the title |
| Gmail.IsUrgent | infra/clients/gmail_client.py:47 | a body is urgent when its lowercased form contains "urgent" |
| Gmail.Read | infra/clients/gmail_client.py:34-47 | what one message contributes: its normalised subject, its body (missing fields read as empty) and its urgency |
| Gmail.MergeBody | infra/clients/gmail_client.py:53-58 | a non-empty body not yet contained is added on a new line, or replaces an empty description |
| Gmail.MergeBodySpec | infra/clients/gmail_client.py:53-58 | merging a body keeps the old description as a prefix and leaves the body contained in the result; an empty or already contained body changes nothing |
| Gmail.NewCard | infra/clients/gmail_client.py:64-74 | a new card: the title, the body as description, labels ["New"] plus "Urgent" when urgent |
| Gmail.MergeInto | infra/clients/gmail_client.py:49-62 | an existing card after a later message: its body merged, "Urgent" added when urgent |
| Gmail.Step | infra/clients/gmail_client.py:43-74 | one loop turn: skip an empty title, merge into the held card, or insert a new card at the end of the key order |
| Gmail.StepWellFormed | infra/clients/gmail_client.py:43-74 | one loop turn keeps the dictionary well formed (distinct keys in order, each card titled by its key, labels starting with "New" and duplicate-free) and adds at most one key |
| Gmail.Merge | infra/clients/gmail_client.py:31-74 | the dictionary after a run of messages, one turn per message in order |
| Gmail.MergeWellFormed | infra/clients/gmail_client.py:31-76 | the dictionary after any run of messages is well formed and has no more keys than messages |
| Gmail.ExpectedCards | infra/clients/gmail_client.py:76 | one card per dictionary key, in key order, each titled by its key |
| Gmail.TitlesSpec | infra/clients/gmail_client.py:43-44 | a title is listed exactly when it is non-empty and some message carries it |
| Gmail.MergeOrder | infra/clients/gmail_client.py:31-74 | the keys are the distinct non-empty titles in order of first appearance |
| Gmail.MergeKeys | infra/clients/gmail_client.py:43-74 | there is a card for a title exactly when it is non-empty and some message normalises to it |
| Gmail.UntitledIgnored | infra/clients/gmail_client.py:43-44 | a message with an empty title changes nothing |
| Gmail.MergeLabels | infra/clients/gmail_client.py:47-72 | a card's labels are ["New", "Urgent"] when some message with its title has "urgent" in its lowercased body, and ["New"] otherwise |
| Gmail.MergeKeepsBody | infra/clients/gmail_client.py:54-68 | every body of every message with a title is contained in that title's final description |
| Gmail.MergeFirstBody | infra/clients/gmail_client.py:54-69 | a card's description starts with the body of the first message with its title |
| Gmail.ExpectedTitles | infra/clients/gmail_client.py:31-76 | the expected cards carry the distinct non-empty titles in order of first appearance, pairwise distinct, never more cards than messages |
| Gmail.ExpectedCardOf | infra/clients/gmail_client.py:33-76 | every message with a non-empty title has a card of that title containing its body, labelled Urgent when the body is urgent |
| Gmail.ExpectedCardSource | infra/clients/gmail_client.py:33-76 | every expected card's title is non-empty and is the title of some message |
| Gmail.TaskAndMeetingMerge | infra/clients/gmail_client.py:33-76 | "Task: Foo" with body "no" then "Meeting: Foo" with body "urgent!" give one card "Foo", description "no\nurgent!", labels New and Urgent |
| Gmail.MergeMessage | infra/clients/gmail_client.py:51-62 | in place, the held record becomes the merge of its old state with the message |
| Gmail.NewCardModal | infra/clients/gmail_client.py:66-72 | a fresh record with the title, the body as description, and labels New (and Urgent) |
| Gmail.AddMail | infra/clients/gmail_client.py:49-74 | merging a titled message into the dictionary of records matches one step of the functional merge |
| Gmail.Turn | infra/clients/gmail_client.py:33-74 | one loop iteration takes the records for the first i messages to those for the first i + 1 |
| Gmail.FillProcessed | infra/clients/gmail_client.py:31-74 | the loop leaves a dictionary of records mirroring the functional merge of all messages |
| Gmail.Values | infra/clients/gmail_client.py:76 | the values of the records, in key order |
| Gmail.GetExpectedCards | infra/clients/gmail_client.py:19-76 | returns exactly the expected cards of the functional model |
| Sync.SyncVerifier.constructor | infra/verifiers/sync_verifier.py:11-15 | stores both card lists and builds the title map and its key order |
| Sync.TitleMap | infra/verifiers/sync_verifier.py:14 | the map from board titles to board cards, a later card replacing an earlier one with the same title |
| Sync.TitleMapKeys | infra/verifiers/sync_verifier.py:14 | the map has a key for every board title and nothing else |
| Sync.TitleMapLast | infra/verifiers/sync_verifier.py:14 | under a repeated title the map holds the last card with that title |
| Sync.Message | infra/verifiers/sync_verifier.py:36-75 | each kind of failure with the source's message text |
| Sync.Uncleaned | infra/verifiers/sync_verifier.py:51 | a board title contains the expected title and "Task" or "Meeting", case-sensitively |
| Sync.FirstUncleaned | infra/verifiers/sync_verifier.py:50-51 | finds the first key that contains the expected title and "Task" or "Meeting", or reports that none does |
| Sync.MissingFinding | infra/verifiers/sync_verifier.py:48-60 | an absent card is reported as TITLE NOT CLEANED, naming an uncleaned board title, exactly when one exists; otherwise it is MISSING CARD |
| Sync.SyncVerifier.HandleMissingCard | infra/verifiers/sync_verifier.py:48-60 | appends exactly that one failure |
| Sync.ExpectedLines | infra/verifiers/sync_verifier.py:63 | the expected description split on newlines, each line stripped, blank lines dropped |
| Sync.StrippedLinesSpec | infra/verifiers/sync_verifier.py:63 | each kept line is non-empty, has no surrounding whitespace, and lies inside the text |
| Sync.ExpectedLinesSpec | infra/verifiers/sync_verifier.py:63 | each expected line is non-empty, stripped and contained in the expected description |
| Sync.StrippedLinesCount | infra/verifiers/sync_verifier.py:63 | each non-empty string is kept as often as it is the strip of a line, the empty string never |
| Sync.StrippedLinesLength | infra/verifiers/sync_verifier.py:63 | one kept line per non-blank line |
| Sync.StrippedLinesComplete | infra/verifiers/sync_verifier.py:63 | no non-blank line is dropped |
| Sync.ExpectedLinesCount | infra/verifiers/sync_verifier.py:63 | every non-blank line of the description is expected, stripped, once per occurrence; blank lines are not |
| Sync.LineFindings | infra/verifiers/sync_verifier.py:64-68 | one CONTENT MISMATCH per expected line the board description lacks, in line order |
| Sync.LineFindingsSpec | infra/verifiers/sync_verifier.py:64-68 | one CONTENT MISMATCH per expected line the board description lacks, none for the others, none at all exactly when every line is found |
| Sync.LineFindingsCount | infra/verifiers/sync_verifier.py:64-68 | a missing line is reported once per occurrence, a found line never, and there are as many failures as lines not found |
| Sync.ContentCount | infra/verifiers/sync_verifier.py:62-68 | each non-blank expected line the board description lacks is reported, stripped, once per occurrence, and no other line is |
| Sync.ContentCovered | infra/verifiers/sync_verifier.py:62-68 | a board description containing the whole expected description gives no content failure |
| Sync.BlankDescription | infra/verifiers/sync_verifier.py:62-68 | a blank expected description gives no content failure |
| Sync.TwoLines | infra/verifiers/sync_verifier.py:63 | the expected lines of "A\nB" are "A" and "B" |
| Sync.TwoLinesFound | infra/verifiers/sync_verifier.py:64-68 | the lines "A" and "B" are both found in "A B extra", so no content failure |
| Sync.LinesFoundLabelMissing | infra/verifiers/sync_verifier.py:62-75 | expected "A\nB" with Urgent against board "A B extra" without it: the only failure is the label |
| Sync.SyncVerifier.VerifyContent | infra/verifiers/sync_verifier.py:62-68 | appends exactly the content failures, line by line |
| Sync.LabelFindings | infra/verifiers/sync_verifier.py:70-75 | a LABEL MISMATCH exactly when "Urgent" is expected and missing on the board, and at most one |
| Sync.SyncVerifier.VerifyLabels | infra/verifiers/sync_verifier.py:70-75 | appends exactly the label failure, if any |
| Sync.CardFindings | infra/verifiers/sync_verifier.py:21-27 | one expected card: its missing-card failure when its title is absent, else its content failures then its label failure |
| Sync.ExistenceFindings | infra/verifiers/sync_verifier.py:18-27 | the failures of step 1, expected card by expected card |
| Sync.SyncVerifier.CheckExpectedCard | infra/verifiers/sync_verifier.py:21-27 | for one expected card: the missing-card failure, or its content failures followed by its label failure |
| Sync.SyncVerifier.VerifyCardsExistenceAndContent | infra/verifiers/sync_verifier.py:18-27 | visits every expected card, appending each card's failures in list order |
| Sync.CardMissingCount | infra/verifiers/sync_verifier.py:48-60 | one expected card yields one missing-kind failure when absent and none when present |
| Sync.ExistenceMissingCount | infra/verifiers/sync_verifier.py:18-27 | the number of missing-kind failures equals the number of absent expected cards |
| Sync.AgainstItself | infra/verifiers/sync_verifier.py:14-27 | expected cards all present verbatim on a board with distinct titles give no failure |
| Sync.IsDirty | infra/verifiers/sync_verifier.py:36 | a title whose lowercased form starts with "task:" or "meeting:" |
| Sync.CardIntegrity | infra/verifiers/sync_verifier.py:35-43 | one board card: DIRTY DATA if its title is prefixed, then DUPLICATION with the count if its title repeats |
| Sync.IntegrityFindings | infra/verifiers/sync_verifier.py:30-43 | the failures of step 2, board card by board card |
| Sync.SyncVerifier.CheckBoardCard | infra/verifiers/sync_verifier.py:35-43 | for one board card: a DIRTY DATA failure if its title starts with a prefix, then a DUPLICATION failure with the count if its title repeats |
| Sync.SyncVerifier.VerifyBoardIntegrity | infra/verifiers/sync_verifier.py:30-43 | visits every board card, appending each card's failures in board order |
| Sync.CardIntegrityCounts | infra/verifiers/sync_verifier.py:36-43 | one board card yields at most one failure of each kind, for its own title |
| Sync.IntegrityCounts | infra/verifiers/sync_verifier.py:32-43 | per title, the duplication and dirty counts equal the number of cards with that title when the condition holds |
| Sync.IntegrityReport | infra/verifiers/sync_verifier.py:32-43 | a title on n > 1 cards is reported duplicated exactly n times with count n and never when n = 1; a prefixed title is reported dirty once per card |
| Sync.IntegrityShape | infra/verifiers/sync_verifier.py:32-43 | step 2 reports nothing else: each failure is DIRTY DATA for a prefixed board title, or DUPLICATION for a board title with its count, which is above one |
| Sync.CleanBoard | infra/verifiers/sync_verifier.py:30-43 | a board with distinct, prefix-free titles passes the integrity step |
| Ui.UIVerifier.constructor | infra/verifiers/ui_verifier.py:10-11 | stores the shared log |
| Ui.DetailChecks | infra/verifiers/ui_verifier.py:43-65 | the four checks, in order, with their conditions and message texts |
| Ui.CleanDescription | infra/verifiers/ui_verifier.py:49 | the shown description with newlines replaced by spaces, then stripped |
| Ui.DetailFailures | infra/verifiers/ui_verifier.py:38-65 | four checks: title equal, cleaned description contains the expected one, label present, status contains the expected one; one entry per failed check, in that order, at most four |
| Ui.DetailLog | infra/verifiers/ui_verifier.py:38-65 | the same entries appended after whatever was logged before |
| Ui.DetailsPass | infra/verifiers/ui_verifier.py:43-65 | nothing is logged exactly when all four conditions hold |
| Ui.ColumnIsSubstring | infra/verifiers/ui_verifier.py:62-65 | the status check is a substring test: "To Do" passes against "To Do List" |
| Ui.MergedDescriptionPasses | infra/verifiers/ui_verifier.py:49-53 | a two-line description shown with its line break passes against the two lines joined by a space |
| Ui.UIVerifier.VerifyCardDetails | infra/verifiers/ui_verifier.py:38-65 | appends exactly the entries of the four checks |
| Ui.TileTitle | infra/verifiers/ui_verifier.py:25 | a card's title is the first line of its text |
| Ui.VisuallyUrgent | infra/verifiers/ui_verifier.py:27 | a card shows urgency when its text contains "Urgent" or its HTML contains "red" |
| Ui.UrgentFailures | infra/verifiers/ui_verifier.py:23-32 | at most one entry per card; none exactly when every card shows "Urgent" in its text or "red" in its HTML |
| Ui.UrgentFlagged | infra/verifiers/ui_verifier.py:25-32 | a card without the cue gets an entry naming the first line of its text |
| Ui.UIVerifier.VerifyUrgentCardsVisuals | infra/verifiers/ui_verifier.py:19-32 | one check per card, in order, and nothing for an empty list |

## Left out

- Loading the messages from a JSON file (`_load_data`) and the `__main__`
  block: file I/O and printing. The builder takes the message list as a
  parameter; a missing `subject` or `body` reads as the empty string.
- Logging and report attachments inside `SoftAssert` and the verifiers.
  They have no effect on results.
- The browser side: locators, `inner_text` and `inner_html`. A board card is
  given as its text and HTML, and an opened card as its four fields.
- The HTTP board client, page objects, fixtures and test scripts. The board
  cards are an input sequence.
- Non-ASCII text. `isspace`, `lower`, `strip` and `split` are modelled on
  ASCII; Python's Unicode rules for them are not.
- Ui.ListText: writes `str(labels)` with every label in single quotes, as
  Python prints plain labels. Labels that Python's `repr` would escape or put
  in double quotes (those holding a quote, a backslash or a control
  character) are not rendered as Python renders them.
- `field(default_factory=List)` for `labels`: every caller passes labels,
  so the field is required.
- The `infra.modals.card_modal` import path used by the verifiers (the
  module file is `cardModal.py`): not modelled.
- SoftAssertion.SoftAssert.AssertAll: returns an `Outcome` instead of
  raising an exception.
- Gmail.GetExpectedCards: returns the cards as values, not as the
  `CardModal` objects themselves, so aliasing between the returned list
  and the dictionary is not captured.
- Sync.SyncVerifier.constructor: the dictionary's key order is kept as a
  separate sequence (`actualKeys`) next to the map.
