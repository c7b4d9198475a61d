/**
 A favourites card that flips over to show its list when clicked.

 The card's optional `listItems` prop decides whether a click does
 anything. The test is JavaScript truthiness of an array, so an empty list
 that is present still enables flipping; only an absent list disables it.
 */
module ProjectCard {

  datatype Option<T> = None | Some(value: T)

  datatype Card = Card(listItems: Option<seq<string>>, isFlipped: bool)

  /** A freshly rendered card shows its front face. */
  function NewCard(listItems: Option<seq<string>>): (c: Card)
    ensures c.listItems == listItems && !c.isFlipped
  {
    Card(listItems, false)
  }

  /** `handleFlip`: toggles the face exactly when the list is present. */
  function HandleFlip(c: Card): (r: Card)
    ensures r.listItems == c.listItems
    ensures r.isFlipped != c.isFlipped <==> c.listItems.Some?
  {
    if c.listItems.Some? then c.(isFlipped := !c.isFlipped) else c
  }

  /** The card after `n` clicks. */
  function Clicks(c: Card, n: nat): (r: Card)
    ensures r.listItems == c.listItems
    decreases n
  {
    if n == 0 then c else Clicks(HandleFlip(c), n - 1)
  }

  /** Two clicks restore the card. */
  lemma FlipTwice(c: Card)
    ensures HandleFlip(HandleFlip(c)) == c
  {
  }

  /** Without a list, a click changes nothing. */
  lemma FlipWithoutListIsNoOp(c: Card)
    requires c.listItems.None?
    ensures HandleFlip(c) == c
  {
  }

  /** After `n` clicks the card shows its back exactly when it has a list
      and `n` differs in parity from the starting face. */
  lemma {:induction false} ClicksParity(c: Card, n: nat)
    ensures Clicks(c, n).isFlipped == (c.isFlipped != (c.listItems.Some? && n % 2 == 1))
    decreases n
  {
    if n > 0 {
      ClicksParity(HandleFlip(c), n - 1);
    }
  }

  /** A fresh card, whose face starts on the front, shows its back after
      `n` clicks exactly when it has a list and `n` is odd. */
  lemma NewCardClicks(listItems: Option<seq<string>>, n: nat)
    ensures Clicks(NewCard(listItems), n).isFlipped <==> listItems.Some? && n % 2 == 1
  {
    ClicksParity(NewCard(listItems), n);
  }
}
