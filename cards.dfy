/** The card record shared by the expected side (built from e-mails) and the
    actual side (read from the board): a title, a free-text description and
    an insertion-ordered list of label names. */
module Cards {
  import opened Text

  /** A card as a value: the state of a `CardModal` at one moment. The
      verifiers only read cards, so they receive them in this form. */
  datatype Card = Card(title: string, description: string, labels: seq<string>)

  /** `[c.title for c in cards]`. */
  function CardTitles(cards: seq<Card>): seq<string> {
    seq(|cards|, i requires 0 <= i < |cards| => cards[i].title)
  }

  /** The label list after `add_label(name)`: the label is appended unless it
      is already there, in which case nothing changes. */
  function WithLabel(labels: seq<string>, name: string): (r: seq<string>)
    ensures name in r
    ensures labels <= r && |r| <= |labels| + 1
    ensures name in labels ==> r == labels
    ensures Distinct(labels) ==> Distinct(r)
  {
    if name in labels then labels else labels + [name]
  }

  /** Adding the same label a second time changes nothing. */
  lemma WithLabelIdempotent(labels: seq<string>, name: string)
    ensures WithLabel(WithLabel(labels, name), name) == WithLabel(labels, name)
  {
  }

  /** The mutable card record of the expectation builder. */
  class CardModal {
    var title: string
    var description: string
    var labels: seq<string>

    constructor (title: string, description: string, labels: seq<string>)
      ensures this.title == title && this.description == description && this.labels == labels
    {
      this.title := title;
      this.description := description;
      this.labels := labels;
    }

    /** The current state of this card as a value. */
    function Snapshot(): (c: Card)
      reads this
      ensures c.title == title && c.description == description && c.labels == labels
    {
      Card(title, description, labels)
    }

    /** `add_label`: appends `name` at the end unless it is already present. */
    method AddLabel(name: string)
      modifies this
      ensures name in labels
      ensures old(name in labels) ==> labels == old(labels)
      ensures old(name !in labels) ==> labels == old(labels) + [name]
      ensures labels == WithLabel(old(labels), name)
      ensures title == old(title) && description == old(description)
    {
      if name !in labels {
        labels := labels + [name];
      }
    }
  }
}
