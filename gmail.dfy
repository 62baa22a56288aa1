/** The expectation builder: from an ordered sequence of raw e-mail messages,
    the cards the sync is expected to have produced. Subjects are normalised
    into titles, messages without a title are dropped, a body mentioning
    "urgent" marks its card Urgent, and messages with the same title are merged
    into one card in order of first appearance. */
module Gmail {
  import opened Text
  import opened Cards

  /** A message as read from the mailbox export: a dictionary of fields. */
  type RawMessage = map<string, string>

  /** `msg.get(key, '')`. */
  function Field(msg: RawMessage, key: string): string {
    if key in msg then msg[key] else ""
  }

  function Subject(msg: RawMessage): string {
    Field(msg, "subject")
  }

  function Body(msg: RawMessage): string {
    Field(msg, "body")
  }

  // ---------------------------------------------------------------------------
  // Title normalisation and urgency

  /** `re.sub(r"(?i)^(Task:|Meeting:)\s*", "", subject)`: one prefix, only at
      position 0, together with the whitespace that follows it. */
  function RemovePrefix(subject: string): (r: string)
    ensures !StartsWithIgnoringCase(subject, "task:") && !StartsWithIgnoringCase(subject, "meeting:")
            ==> r == subject
  {
    if StartsWithIgnoringCase(subject, "task:") then TrimStart(subject[5..])
    else if StartsWithIgnoringCase(subject, "meeting:") then TrimStart(subject[8..])
    else subject
  }

  /** The card title of a subject: prefix removed, stripped, and whitespace
      runs collapsed to single spaces. */
  function NormalizeTitle(subject: string): string {
    Collapse(Strip(RemovePrefix(subject)))
  }

  /** A title has no surrounding whitespace and single spaces between its
      words. */
  lemma NormalizeCanonical(subject: string)
    ensures Canonical(NormalizeTitle(subject))
  {
    CollapseCanonical(Strip(RemovePrefix(subject)));
  }

  function Title(msg: RawMessage): string {
    NormalizeTitle(Subject(msg))
  }

  /** `"urgent" in body.lower()`. */
  predicate IsUrgent(body: string) {
    Contains(Lower(body), "urgent")
  }

  /** A title that is already canonical and carries no prefix is its own
      normalisation. */
  lemma NormalizeFixed(t: string)
    requires Canonical(t)
    requires !StartsWithIgnoringCase(t, "task:") && !StartsWithIgnoringCase(t, "meeting:")
    ensures NormalizeTitle(t) == t
  {
    CanonicalFixed(t);
  }

  /** Normalising twice gives the same title as normalising once, unless the
      first result still starts with a prefix. */
  lemma NormalizeIdempotentWithoutPrefix(subject: string)
    requires var t := NormalizeTitle(subject);
             !StartsWithIgnoringCase(t, "task:") && !StartsWithIgnoringCase(t, "meeting:")
    ensures NormalizeTitle(NormalizeTitle(subject)) == NormalizeTitle(subject)
  {
    NormalizeCanonical(subject);
    NormalizeFixed(NormalizeTitle(subject));
  }

  /** A subject whose prefix-free form is already canonical normalises to
      that form. */
  lemma NormalizeTo(subject: string, t: string)
    requires RemovePrefix(subject) == t && Canonical(t)
    ensures NormalizeTitle(subject) == t
  {
    CanonicalFixed(t);
  }

  lemma RemoveTaskPrefix(rest: string)
    requires rest == [] || !IsSpace(rest[0])
    ensures RemovePrefix("Task: " + rest) == rest
  {
    var s := "Task: " + rest;
    assert s[..5] == "Task:";
    assert Lower("Task:") == "task:";
    assert s[5..] == [' '] + rest;
    assert TrimStart(rest) == rest;
  }

  /** "task:" is recognised in any letter case, and the whitespace after it
      goes with it. */
  lemma RemoveTaskAnyCase(p: string, rest: string)
    requires |p| == 5 && Lower(p) == "task:"
    ensures RemovePrefix(p + rest) == TrimStart(rest)
  {
    var s := p + rest;
    assert s[..5] == p && s[5..] == rest;
  }

  /** "meeting:" is recognised in any letter case, and the whitespace after
      it goes with it. */
  lemma RemoveMeetingAnyCase(p: string, rest: string)
    requires |p| == 8 && Lower(p) == "meeting:"
    ensures RemovePrefix(p + rest) == TrimStart(rest)
  {
    var s := p + rest;
    assert s[..8] == p && s[8..] == rest;
    assert Lower(s[..5])[0] == Lower(p)[0] == 'm';
  }

  /** A subject whose first letter starts neither prefix keeps everything. */
  lemma NoPrefix(s: string)
    requires s != [] && LowerChar(s[0]) != 't' && LowerChar(s[0]) != 'm'
    ensures RemovePrefix(s) == s
  {
    if |s| >= 5 {
      assert Lower(s[..5])[0] != "task:"[0];
    }
    if |s| >= 8 {
      assert Lower(s[..8])[0] != "meeting:"[0];
    }
  }

  lemma CanonicalFoo()
    ensures Canonical("Foo")
    ensures Canonical("Task: Foo")
    ensures Canonical("Re: Task: Foo")
  {
    var t := "Task: Foo";
    assert forall i :: 0 <= i < |t| && IsSpace(t[i]) ==> i == 5;
    var u := "Re: Task: Foo";
    assert forall i :: 0 <= i < |u| && IsSpace(u[i]) ==> i == 3 || i == 9;
  }

  /** Only one prefix is removed: "Task: Task: Foo" becomes "Task: Foo", which
      normalises further to "Foo", so normalisation is not idempotent. */
  lemma OnlyOnePrefixRemoved()
    ensures NormalizeTitle("Task: Task: Foo") == "Task: Foo"
    ensures NormalizeTitle(NormalizeTitle("Task: Task: Foo")) == "Foo"
  {
    assert "Task: Task: Foo" == "Task: " + "Task: Foo";
    assert "Task: Foo" == "Task: " + "Foo";
    CanonicalFoo();
    RemoveTaskPrefix("Task: Foo");
    NormalizeTo("Task: Task: Foo", "Task: Foo");
    RemoveTaskPrefix("Foo");
    NormalizeTo("Task: Foo", "Foo");
  }

  /** A prefix that is not at position 0 stays. */
  lemma PrefixOnlyAtStart()
    ensures NormalizeTitle("Re: Task: Foo") == "Re: Task: Foo"
  {
    CanonicalFoo();
    NoPrefix("Re: Task: Foo");
    NormalizeTo("Re: Task: Foo", "Re: Task: Foo");
  }

  // ---------------------------------------------------------------------------
  // Merging, as a function of the messages

  /** The description after merging one more body into it: the body is added
      on a new line unless it is empty or already part of the text, and it
      replaces an empty description. */
  function MergeBody(description: string, body: string): string {
    if body != [] && !Contains(description, body) then
      if description != [] then description + "\n" + body else body
    else description
  }

  /** Merging keeps the old description as a prefix and leaves the body in the
      result; an empty or already contained body changes nothing. */
  lemma MergeBodySpec(description: string, body: string)
    ensures description <= MergeBody(description, body)
    ensures Contains(MergeBody(description, body), body)
    ensures body == [] || Contains(description, body) ==> MergeBody(description, body) == description
  {
    var r := MergeBody(description, body);
    if body == [] {
      ContainsEmpty(r);
    } else if !Contains(description, body) {
      if description != [] {
        assert r[|description| + 1..|description| + 1 + |body|] == body;
        ContainsAt(r, body, |description| + 1);
      } else {
        ContainsSelf(r);
      }
    }
  }

  /** The card created for the first message with a title. */
  function NewCard(title: string, body: string, urgent: bool): Card {
    Card(title, body, if urgent then WithLabel(["New"], "Urgent") else ["New"])
  }

  /** An existing card after a later message with its title is merged in. */
  function MergeInto(card: Card, body: string, urgent: bool): Card {
    card.(description := MergeBody(card.description, body),
          labels := if urgent then WithLabel(card.labels, "Urgent") else card.labels)
  }

  /** The builder's dictionary: its keys in insertion order and its entries. */
  datatype Processed = Processed(order: seq<string>, cards: map<string, Card>)

  /** What the loop reads from one message: its title, its body and whether
      the body is urgent. */
  datatype Mail = Mail(title: string, body: string, urgent: bool)

  function Read(msg: RawMessage): (m: Mail)
    ensures m.body == Body(msg)
  {
    Mail(Title(msg), Body(msg), IsUrgent(Body(msg)))
  }

  /** One turn of the loop over the messages. */
  function Step(p: Processed, m: Mail): Processed {
    if m.title == [] then p
    else if m.title in p.cards then
      p.(cards := p.cards[m.title := MergeInto(p.cards[m.title], m.body, m.urgent)])
    else
      Processed(p.order + [m.title], p.cards[m.title := NewCard(m.title, m.body, m.urgent)])
  }

  /** The dictionary's keys are distinct titles in insertion order, and each
      entry is a card for its own key whose labels begin with "New" and hold
      no label twice. */
  ghost predicate WellFormed(p: Processed) {
    && Distinct(p.order)
    && (forall t :: t in p.order ==> t in p.cards)
    && (forall t :: t in p.cards ==> t in p.order)
    && forall t :: t in p.cards ==>
         && p.cards[t].title == t
         && t != []
         && |p.cards[t].labels| > 0
         && p.cards[t].labels[0] == "New"
         && Distinct(p.cards[t].labels)
  }

  lemma StepWellFormed(p: Processed, m: Mail)
    requires WellFormed(p)
    ensures WellFormed(Step(p, m))
    ensures |Step(p, m).order| <= |p.order| + 1
  {
    var title := m.title;
    if title != [] && title !in p.cards {
      var q := Step(p, m);
      assert q.order == p.order + [title];
      assert Distinct(q.order) by {
        forall i, j | 0 <= i < j < |q.order| ensures q.order[i] != q.order[j] {
          if j == |p.order| {
            assert q.order[i] == p.order[i];
            assert p.order[i] in p.cards;
          }
        }
      }
      assert |NewCard(title, m.body, m.urgent).labels| > 0;
    }
  }

  /** The dictionary after a run of read messages, one turn per message. */
  function Merge(mails: seq<Mail>): Processed {
    if mails == [] then Processed([], map[])
    else Step(Merge(mails[..|mails| - 1]), mails[|mails| - 1])
  }

  lemma {:induction false} MergeWellFormed(mails: seq<Mail>)
    ensures WellFormed(Merge(mails))
    ensures |Merge(mails).order| <= |mails|
  {
    if mails != [] {
      MergeWellFormed(mails[..|mails| - 1]);
      StepWellFormed(Merge(mails[..|mails| - 1]), mails[|mails| - 1]);
    }
  }

  lemma MergeSnoc(mails: seq<Mail>, m: Mail)
    ensures Merge(mails + [m]) == Step(Merge(mails), m)
  {
    assert (mails + [m])[..|mails|] == mails;
  }

  /** What the loop reads from each message, in order. */
  function Reads(messages: seq<RawMessage>): (mails: seq<Mail>)
    ensures |mails| == |messages|
  {
    if messages == [] then []
    else Reads(messages[..|messages| - 1]) + [Read(messages[|messages| - 1])]
  }

  lemma ReadsSnoc(messages: seq<RawMessage>, i: nat)
    requires i < |messages|
    ensures Reads(messages[..i + 1]) == Reads(messages[..i]) + [Read(messages[i])]
  {
    assert messages[..i + 1][..i] == messages[..i];
  }

  /** The dictionary after all the messages. */
  function Process(messages: seq<RawMessage>): Processed {
    Merge(Reads(messages))
  }

  /** `list(processed_cards.values())`. */
  function ExpectedCards(messages: seq<RawMessage>): (cards: seq<Card>)
    ensures |cards| == |Process(messages).order|
    ensures forall k :: 0 <= k < |cards| ==> cards[k].title == Process(messages).order[k]
  {
    var p := Process(messages);
    MergeWellFormed(Reads(messages));
    seq(|p.order|, i requires 0 <= i < |p.order| => p.cards[p.order[i]])
  }

  // ---------------------------------------------------------------------------
  // What the merged dictionary holds

  /** The non-empty titles of a run of read messages, in order. */
  function Titles(mails: seq<Mail>): (ts: seq<string>)
    ensures |ts| <= |mails|
  {
    if mails == [] then []
    else
      var last := mails[|mails| - 1];
      Titles(mails[..|mails| - 1]) + (if last.title != [] then [last.title] else [])
  }

  /** A title is listed exactly when some message carries it. */
  lemma {:induction false} TitlesSpec(mails: seq<Mail>, t: string)
    ensures t in Titles(mails) <==> t != [] && exists i :: 0 <= i < |mails| && mails[i].title == t
  {
    if mails != [] {
      var init := mails[..|mails| - 1];
      TitlesSpec(init, t);
      if t in Titles(mails) && t !in Titles(init) {
        assert mails[|mails| - 1].title == t;
      }
      if t != [] && t !in Titles(init) && exists i :: 0 <= i < |mails| && mails[i].title == t {
        var i :| 0 <= i < |mails| && mails[i].title == t;
        if i < |init| {
          assert init[i] == mails[i];
        }
      }
    }
  }

  /** The dictionary's keys, in insertion order, are the distinct non-empty
      titles in order of first appearance. */
  lemma {:induction false} MergeOrder(mails: seq<Mail>)
    ensures Merge(mails).order == Dedup(Titles(mails))
  {
    if mails != [] {
      var init, last := mails[..|mails| - 1], mails[|mails| - 1];
      MergeOrder(init);
      MergeWellFormed(init);
      var ts := Titles(init);
      if last.title == [] {
        assert Titles(mails) == ts;
      } else {
        var ts' := ts + [last.title];
        assert Titles(mails) == ts';
        assert ts'[..|ts'| - 1] == ts;
      }
    }
  }

  /** The dictionary holds a card for a title exactly when some message
      normalises to that title, and never for the empty title. */
  lemma MergeKeys(mails: seq<Mail>, t: string)
    ensures t in Merge(mails).cards <==> t != [] && exists i :: 0 <= i < |mails| && mails[i].title == t
  {
    MergeWellFormed(mails);
    MergeOrder(mails);
    DedupSpec(Titles(mails));
    TitlesSpec(mails, t);
  }

  /** A message with an empty title leaves the dictionary as it was. */
  lemma UntitledIgnored(mails: seq<Mail>, m: Mail)
    requires m.title == []
    ensures Merge(mails + [m]) == Merge(mails)
  {
    MergeSnoc(mails, m);
  }

  /** Some message with title `t` has an urgent body. */
  ghost predicate UrgentFor(mails: seq<Mail>, t: string) {
    exists i :: 0 <= i < |mails| && mails[i].title == t && mails[i].urgent
  }

  /** Every card is labelled "New", and also "Urgent" exactly when some
      message with its title has an urgent body. */
  lemma {:induction false} MergeLabels(mails: seq<Mail>, t: string)
    requires t in Merge(mails).cards
    ensures Merge(mails).cards[t].labels == if UrgentFor(mails, t) then ["New", "Urgent"] else ["New"]
  {
    var init, last := mails[..|mails| - 1], mails[|mails| - 1];
    assert forall i :: 0 <= i < |init| ==> init[i] == mails[i];
    MergeKeys(init, t);
    if t in Merge(init).cards {
      MergeLabels(init, t);
      if UrgentFor(mails, t) && !UrgentFor(init, t) {
        assert last.title == t && last.urgent;
      }
    } else {
      assert last.title == t;
      if UrgentFor(mails, t) {
        var i :| 0 <= i < |mails| && mails[i].title == t && mails[i].urgent;
        assert i == |mails| - 1;
      }
    }
  }

  /** The body of every message with title `t` ends up in the card's
      description. */
  lemma {:induction false} MergeKeepsBody(mails: seq<Mail>, i: nat)
    requires i < |mails| && mails[i].title != []
    ensures mails[i].title in Merge(mails).cards
    ensures Contains(Merge(mails).cards[mails[i].title].description, mails[i].body)
  {
    var init, last := mails[..|mails| - 1], mails[|mails| - 1];
    var t := mails[i].title;
    var before := Merge(init);
    if i == |mails| - 1 {
      if t in before.cards {
        MergeBodySpec(before.cards[t].description, last.body);
      } else {
        ContainsSelf(last.body);
      }
    } else {
      assert init[i] == mails[i];
      MergeKeepsBody(init, i);
      if last.title == t {
        var d := before.cards[t].description;
        var d' := MergeBody(d, last.body);
        MergeBodySpec(d, last.body);
        ContainsAt(d', d, 0);
        ContainsTransitive(d', d, mails[i].body);
      }
    }
  }

  /** A card's description starts with the body of the first message with its
      title. */
  lemma {:induction false} MergeFirstBody(mails: seq<Mail>, i: nat)
    requires i < |mails| && mails[i].title != []
    requires forall j :: 0 <= j < i ==> mails[j].title != mails[i].title
    ensures mails[i].title in Merge(mails).cards
    ensures mails[i].body <= Merge(mails).cards[mails[i].title].description
  {
    var init, last := mails[..|mails| - 1], mails[|mails| - 1];
    var t := mails[i].title;
    if i == |mails| - 1 {
      MergeKeys(init, t);
      forall j | 0 <= j < |init| ensures init[j].title != t {
        assert init[j] == mails[j];
      }
    } else {
      assert init[i] == mails[i];
      forall j | 0 <= j < i ensures init[j].title != t {
        assert init[j] == mails[j];
      }
      MergeFirstBody(init, i);
      if last.title == t {
        MergeBodySpec(Merge(init).cards[t].description, last.body);
      }
    }
  }

  lemma {:induction false} ReadsAt(messages: seq<RawMessage>, i: nat)
    requires i < |messages|
    ensures Reads(messages)[i] == Read(messages[i])
    decreases |messages|
  {
    if i < |messages| - 1 {
      ReadsAt(messages[..|messages| - 1], i);
    }
  }

  /** The expected cards carry the distinct non-empty titles of the messages,
      in order of first appearance, so there are never more cards than
      messages. */
  lemma ExpectedTitles(messages: seq<RawMessage>)
    ensures var cards := ExpectedCards(messages);
            var titles := Dedup(Titles(Reads(messages)));
            |cards| == |titles| && forall k :: 0 <= k < |cards| ==> cards[k].title == titles[k]
    ensures Distinct(CardTitles(ExpectedCards(messages)))
    ensures |ExpectedCards(messages)| <= |messages|
  {
    MergeOrder(Reads(messages));
    MergeWellFormed(Reads(messages));
    assert CardTitles(ExpectedCards(messages)) == Process(messages).order;
  }

  /** Every message with a non-empty title has a card of that title whose
      description holds its body and which is labelled "Urgent" when the body
      is urgent. */
  lemma ExpectedCardOf(messages: seq<RawMessage>, i: nat)
    requires i < |messages| && Title(messages[i]) != []
    ensures exists k :: 0 <= k < |ExpectedCards(messages)| &&
              var card := ExpectedCards(messages)[k];
              && card.title == Title(messages[i])
              && Contains(card.description, Body(messages[i]))
              && (IsUrgent(Body(messages[i])) ==> "Urgent" in card.labels)
  {
    var mails := Reads(messages);
    var t := Title(messages[i]);
    ReadsAt(messages, i);
    MergeKeepsBody(mails, i);
    MergeLabels(mails, t);
    MergeWellFormed(mails);
    var p := Merge(mails);
    var k := IndexOf(p.order, t);
    assert ExpectedCards(messages)[k] == p.cards[t];
  }

  /** Every expected card comes from some message with its title. */
  lemma ExpectedCardSource(messages: seq<RawMessage>, k: nat)
    requires k < |ExpectedCards(messages)|
    ensures var t := ExpectedCards(messages)[k].title;
            t != [] && exists i :: 0 <= i < |messages| && Title(messages[i]) == t
  {
    var mails := Reads(messages);
    var t := ExpectedCards(messages)[k].title;
    MergeWellFormed(mails);
    MergeKeys(mails, t);
    var i :| 0 <= i < |mails| && mails[i].title == t;
    ReadsAt(messages, i);
  }

  /** "Meeting: Foo" normalises to "Foo". */
  lemma MeetingFoo()
    ensures NormalizeTitle("Meeting: Foo") == "Foo"
  {
    assert "Meeting: Foo" == "Meeting:" + " Foo";
    assert Lower("Meeting:") == "meeting:";
    RemoveMeetingAnyCase("Meeting:", " Foo");
    assert LeadingSpaces(" Foo") == 1;
    CanonicalFoo();
    NormalizeTo("Meeting: Foo", "Foo");
  }

  /** "Task: Foo" normalises to "Foo". */
  lemma TaskFoo()
    ensures NormalizeTitle("Task: Foo") == "Foo"
  {
    assert "Task: Foo" == "Task: " + "Foo";
    RemoveTaskPrefix("Foo");
    CanonicalFoo();
    NormalizeTo("Task: Foo", "Foo");
  }

  lemma ReadsTwo(a: RawMessage, b: RawMessage)
    ensures Reads([a, b]) == [Read(a), Read(b)]
  {
    assert [a, b][..1] == [a];
    assert Reads([a]) == [] + [Read(a)];
  }

  lemma MergeTwo(x: Mail, y: Mail)
    ensures Merge([x, y]) == Step(Step(Processed([], map[]), x), y)
  {
    assert [x, y][..1] == [x];
    assert [x][..0] == [];
    assert Merge([x]) == Step(Processed([], map[]), x);
  }

  lemma ReadTask(a: RawMessage)
    requires a == map["subject" := "Task: Foo", "body" := "no"]
    ensures Read(a) == Mail("Foo", "no", false)
  {
    TaskFoo();
    assert Subject(a) == "Task: Foo" && Body(a) == "no";
    ContainsLonger(Lower("no"), "urgent");
  }

  lemma ReadMeeting(b: RawMessage)
    requires b == map["subject" := "Meeting: Foo", "body" := "urgent!"]
    ensures Read(b) == Mail("Foo", "urgent!", true)
  {
    MeetingFoo();
    assert Subject(b) == "Meeting: Foo" && Body(b) == "urgent!";
    UrgentBody();
  }

  lemma UrgentBody()
    ensures IsUrgent("urgent!")
  {
    var l := Lower("urgent!");
    assert l[..6] == "urgent";
  }

  lemma MergeFoo()
    ensures Merge([Mail("Foo", "no", false), Mail("Foo", "urgent!", true)])
            == Processed(["Foo"], map["Foo" := Card("Foo", "no\nurgent!", ["New", "Urgent"])])
  {
    MergeTwo(Mail("Foo", "no", false), Mail("Foo", "urgent!", true));
    ContainsLonger("no", "urgent!");
    assert MergeBody("no", "urgent!") == "no\nurgent!";
    assert WithLabel(["New"], "Urgent") == ["New", "Urgent"];
  }

  /** A task and a meeting with the same subject become one card: the second
      body goes on a new line, and since it mentions "urgent" the card gains
      the Urgent label. */
  lemma TaskAndMeetingMerge()
    ensures ExpectedCards([map["subject" := "Task: Foo", "body" := "no"],
                           map["subject" := "Meeting: Foo", "body" := "urgent!"]])
            == [Card("Foo", "no\nurgent!", ["New", "Urgent"])]
  {
    var a: RawMessage := map["subject" := "Task: Foo", "body" := "no"];
    var b: RawMessage := map["subject" := "Meeting: Foo", "body" := "urgent!"];
    ReadTask(a);
    ReadMeeting(b);
    ReadsTwo(a, b);
    MergeFoo();
  }

  // ---------------------------------------------------------------------------
  // The builder as the source runs it: mutable cards in a dictionary

  /** `gmail_client.py` lines 51-62: merge one more message into the card
      already held for its title, in place. */
  method MergeMessage(existing: CardModal, body: string, urgent: bool)
    modifies existing
    ensures existing.Snapshot() == MergeInto(old(existing.Snapshot()), body, urgent)
  {
    if body != [] && !Contains(existing.description, body) {
      if existing.description != [] {
        existing.description := existing.description + "\n" + body;
      } else {
        existing.description := body;
      }
    }
    if urgent {
      existing.AddLabel("Urgent");
    }
  }

  /** `gmail_client.py` lines 66-72: the record created for the first
      message with a title. */
  method NewCardModal(title: string, body: string, urgent: bool) returns (card: CardModal)
    ensures fresh(card)
    ensures card.Snapshot() == NewCard(title, body, urgent)
  {
    card := new CardModal(title, body, ["New"]);
    if urgent {
      card.AddLabel("Urgent");
    }
  }

  /** The cards held by the dictionary. */
  function Held(processed: map<string, CardModal>): set<CardModal> {
    set t | t in processed :: processed[t]
  }

  /** The dictionary of records holds the dictionary of values `p`, with
      `order` its insertion order; each record carries its own key as title,
      so no record is held under two keys. */
  ghost predicate Mirrors(processed: map<string, CardModal>, order: seq<string>, p: Processed)
    reads Held(processed)
  {
    && order == p.order
    && (forall t :: t in processed <==> t in p.cards)
    && (forall t :: t in processed ==> processed[t].title == t && processed[t].Snapshot() == p.cards[t])
  }

  /** `gmail_client.py` lines 49-74: the message with a non-empty title
      `m.title` is merged into the record held for that title, or becomes a
      new record. */
  method AddMail(processed: map<string, CardModal>, order: seq<string>, ghost p: Processed, m: Mail)
      returns (processed': map<string, CardModal>, order': seq<string>)
    requires m.title != []
    requires Mirrors(processed, order, p)
    modifies Held(processed)
    ensures Mirrors(processed', order', Step(p, m))
    ensures fresh(Held(processed') - Held(processed))
  {
    processed', order' := processed, order;
    if m.title in processed {
      var existing := processed[m.title];
      MergeMessage(existing, m.body, m.urgent);
    } else {
      var card := NewCardModal(m.title, m.body, m.urgent);
      processed' := processed[m.title := card];
      order' := order + [m.title];
    }
  }

  /** One turn of the loop (`gmail_client.py` lines 33-74) on message `i`:
      the record of its title is merged or created, and the value model
      advances by one read message. */
  method Turn(processed: map<string, CardModal>, order: seq<string>, messages: seq<RawMessage>, i: nat)
      returns (processed': map<string, CardModal>, order': seq<string>)
    requires i < |messages|
    requires Mirrors(processed, order, Process(messages[..i]))
    modifies Held(processed)
    ensures Mirrors(processed', order', Process(messages[..i + 1]))
    ensures fresh(Held(processed') - Held(processed))
  {
    ghost var mails := Reads(messages[..i]);
    var m := Read(messages[i]);
    processed', order' := processed, order;
    if m.title != [] {
      processed', order' := AddMail(processed, order, Merge(mails), m);
    }
    ReadsSnoc(messages, i);
    MergeSnoc(mails, m);
  }

  /** The loop of `get_expected_cards` (`gmail_client.py` lines 33-74):
      fills the dictionary of `CardModal` records, creating a record for a new title and updating the
      held record in place for a title seen before. The ghost result is the
      same dictionary as a value. */
  method FillProcessed(messages: seq<RawMessage>)
      returns (processed: map<string, CardModal>, order: seq<string>, ghost p: Processed)
    ensures p == Process(messages)
    ensures Mirrors(processed, order, p)
  {
    order := [];
    processed := map[];
    for i := 0 to |messages|
      invariant Mirrors(processed, order, Process(messages[..i]))
      invariant fresh(Held(processed))
    {
      processed, order := Turn(processed, order, messages, i);
    }
    assert messages[..|messages|] == messages;
    p := Process(messages);
  }

  method Values(processed: map<string, CardModal>, order: seq<string>) returns (cards: seq<Card>)
    requires forall t :: t in order ==> t in processed
    ensures |cards| == |order|
    ensures forall k :: 0 <= k < |order| ==> cards[k] == processed[order[k]].Snapshot()
  {
    cards := [];
    for j := 0 to |order|
      invariant |cards| == j
      invariant forall k :: 0 <= k < j ==> cards[k] == processed[order[k]].Snapshot()
    {
      cards := cards + [processed[order[j]].Snapshot()];
    }
  }

  method GetExpectedCards(messages: seq<RawMessage>) returns (cards: seq<Card>)
    ensures cards == ExpectedCards(messages)
  {
    var processed, order, p := FillProcessed(messages);
    MergeWellFormed(Reads(messages));
    cards := Values(processed, order);
  }
}
