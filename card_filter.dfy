/**
 * The filter steps applied to lists of flashcards. Each step keeps, in order,
 * the cards that satisfy one criterion; a filter is a list of steps applied in turn.
 */
module CardFilter {
  import opened Seqs
  import opened Text
  import opened Cards

  datatype Criterion =
    | IsNotRemembered          // status == .notRemembered
    | HasTag(tag: Tag)         // tags.contains(tag), by identity
    | Mentions(text: string)   // front or back contains text, ignoring case
    | DueBy(now: int)          // reviewDate <= now

  predicate Holds(c: Flashcard, k: Criterion)
    reads c
  {
    match k
    case IsNotRemembered => c.status == NotRemembered
    case HasTag(t) => t in c.tags
    case Mentions(q) => ContainsIgnoringCase(c.frontText, q) || ContainsIgnoringCase(c.backText, q)
    case DueBy(now) => c.reviewDate <= now
  }

  /** `cards.filter { k holds of $0 }`: the cards satisfying `k`, in their original order. */
  function Keep(cards: seq<Flashcard>, k: Criterion): (r: seq<Flashcard>)
    reads cards
    ensures forall c :: c in r ==> c in cards && Holds(c, k)
    ensures forall c :: c in cards && Holds(c, k) ==> c in r
    ensures Subsequence(r, cards)
    decreases |cards|
  {
    if cards == [] then []
    else if Holds(cards[0], k) then [cards[0]] + Keep(cards[1..], k)
    else Keep(cards[1..], k)
  }

  /** A filter step changes nothing when every card already satisfies it. */
  lemma {:induction false} KeepAllHolding(cards: seq<Flashcard>, k: Criterion)
    requires forall c :: c in cards ==> Holds(c, k)
    ensures Keep(cards, k) == cards
    decreases |cards|
  {
    if cards != [] {
      KeepAllHolding(cards[1..], k);
    }
  }

  /** The steps of `ks` applied one after the other. */
  function KeepAll(cards: seq<Flashcard>, ks: seq<Criterion>): seq<Flashcard>
    reads set c | c in cards
    decreases |ks|
  {
    if ks == [] then cards
    else
      KeepAll(Keep(cards, ks[0]), ks[1..])
  }

  /** A card passes the filter iff every criterion holds of it; the order is kept. */
  lemma {:induction false} KeepAllMeaning(cards: seq<Flashcard>, ks: seq<Criterion>)
    ensures forall c :: c in KeepAll(cards, ks) ==> c in cards && forall k :: k in ks ==> Holds(c, k)
    ensures forall c :: c in cards && (forall k :: k in ks ==> Holds(c, k)) ==> c in KeepAll(cards, ks)
    ensures Subsequence(KeepAll(cards, ks), cards)
    decreases |ks|
  {
    if ks == [] {
      SubsequenceReflexive(cards);
    } else {
      var once := Keep(cards, ks[0]);
      KeepAllMeaning(once, ks[1..]);
      SubsequenceTransitive(KeepAll(once, ks[1..]), once, cards);
      assert forall k :: k in ks <==> k == ks[0] || k in ks[1..];
    }
  }

  /** One more step at the end filters the result of the earlier steps. */
  lemma {:induction false} KeepAllSnoc(cards: seq<Flashcard>, ks: seq<Criterion>, k: Criterion)
    ensures KeepAll(cards, ks + [k]) == Keep(KeepAll(cards, ks), k)
    decreases |ks|
  {
    if ks != [] {
      assert (ks + [k])[1..] == ks[1..] + [k];
      KeepAllSnoc(Keep(cards, ks[0]), ks[1..], k);
    } else {
      assert KeepAll(Keep(cards, k), []) == Keep(cards, k);
    }
  }

  /** Filtering the result of a filter again with the same criteria returns it unchanged. */
  lemma {:induction false} KeepAllIdempotent(cards: seq<Flashcard>, ks: seq<Criterion>)
    ensures KeepAll(KeepAll(cards, ks), ks) == KeepAll(cards, ks)
  {
    var r := KeepAll(cards, ks);
    KeepAllMeaning(cards, ks);
    KeepAllOfHolding(r, ks);
  }

  lemma {:induction false} KeepAllOfHolding(cards: seq<Flashcard>, ks: seq<Criterion>)
    requires forall c, k :: c in cards && k in ks ==> Holds(c, k)
    ensures KeepAll(cards, ks) == cards
    decreases |ks|
  {
    if ks != [] {
      assert ks[0] in ks;
      KeepAllHolding(cards, ks[0]);
      assert forall k :: k in ks[1..] ==> k in ks;
      KeepAllOfHolding(cards, ks[1..]);
    }
  }
}
