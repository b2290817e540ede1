/**
 * The persistent records of the app: flashcards and tags, and the in-memory
 * store that stands for the SwiftData model context.
 *
 * Identifiers are natural numbers handed in by the caller (the app draws a
 * fresh UUID); dates are whole day numbers.
 */
module Cards {
  import opened Seqs

  datatype Option<T> = None | Some(value: T)

  /** Image data: an opaque blob of bytes. */
  type Image = seq<bv8>

  /** Whether the learner remembers a card; a new card is `NotRemembered`. */
  datatype ReviewStatus = Remembered | NotRemembered

  /**
   * The spaced-repetition state of a card. The easiness factor is kept in
   * hundredths (250 stands for 2.5); the interval is in days.
   */
  datatype Memory = Memory(easinessFactor: int, repetitions: int, interval: int)
  {
    /** The scheduler's assumptions: easiness at least 1.3, and a positive interval once reviewed. */
    predicate Valid()
    {
      easinessFactor >= 130 && repetitions >= 0 && (repetitions >= 1 ==> interval >= 1)
    }
  }

  class Tag {
    const id: nat
    var name: string

    constructor (id: nat, name: string)
      ensures this.id == id && this.name == name
    {
      this.id := id;
      this.name := name;
    }
  }

  class Flashcard {
    const id: nat
    var frontText: string
    var backText: string
    var tags: seq<Tag>
    var image: Option<Image>
    var reviewDate: int
    var status: ReviewStatus
    // The scheduler's state, stored on the card as three fields.
    var easinessFactor: int
    var repetitions: int
    var interval: int

    /** The three scheduler fields as one value. */
    function State(): Memory
      reads this
    {
      Memory(easinessFactor, repetitions, interval)
    }

    /**
     * Stores every argument unchanged. `tags`, `image` and `status` default to
     * no tags, no image and not remembered; the scheduler state has no default.
     */
    constructor (frontText: string, backText: string, tags: seq<Tag> := [], image: Option<Image> := None,
                 reviewDate: int, status: ReviewStatus := NotRemembered, id: nat, memory: Memory)
      ensures this.frontText == frontText && this.backText == backText
      ensures this.tags == tags && this.image == image
      ensures this.reviewDate == reviewDate && this.status == status
      ensures this.id == id && State() == memory
    {
      this.frontText := frontText;
      this.backText := backText;
      this.tags := tags;
      this.image := image;
      this.reviewDate := reviewDate;
      this.status := status;
      this.id := id;
      this.easinessFactor := memory.easinessFactor;
      this.repetitions := memory.repetitions;
      this.interval := memory.interval;
    }
  }

  /** The `id`s of `cards` are pairwise distinct (a unique attribute). */
  ghost predicate DistinctCardIds(cards: seq<Flashcard>)
  {
    forall i, j :: 0 <= i < j < |cards| ==> cards[i].id != cards[j].id
  }

  /** The `id`s of `tags` are pairwise distinct (a unique attribute). */
  ghost predicate DistinctTagIds(tags: seq<Tag>)
  {
    forall i, j :: 0 <= i < j < |tags| ==> tags[i].id != tags[j].id
  }

  /** Deleting a card keeps the other cards' ids distinct. */
  lemma {:induction false} WithoutKeepsDistinctIds(cards: seq<Flashcard>, card: Flashcard)
    requires DistinctCardIds(cards)
    ensures DistinctCardIds(Without(cards, card))
    decreases |cards|
  {
    if cards != [] {
      var rest := Without(cards[1..], card);
      WithoutKeepsDistinctIds(cards[1..], card);
      if cards[0] != card {
        forall d | d in rest ensures d.id != cards[0].id {
          var j :| 0 <= j < |cards[1..]| && cards[1..][j] == d;
          assert cards[j + 1] == d;
        }
      }
    }
  }

  /** With distinct ids, a stored card occurs exactly once. */
  lemma {:induction false} DistinctIdsOccurOnce(cards: seq<Flashcard>, card: Flashcard)
    requires DistinctCardIds(cards) && card in cards
    ensures multiset(cards)[card] == 1
    decreases |cards|
  {
    assert cards == [cards[0]] + cards[1..];
    if cards[0] == card {
      forall d | d in cards[1..] ensures d != card {
        var j :| 0 <= j < |cards[1..]| && cards[1..][j] == d;
        assert cards[j + 1] == d;
      }
      assert multiset(cards[1..])[card] == 0;
    } else {
      DistinctIdsOccurOnce(cards[1..], card);
    }
  }

  /** No two tags of `tags` have the same name. */
  ghost predicate DistinctTagNames(tags: seq<Tag>)
    reads set t | t in tags
  {
    forall i, j :: 0 <= i < j < |tags| ==> tags[i].name != tags[j].name
  }

  /** All stored flashcards and tags, in store order. */
  class Store {
    var flashcards: seq<Flashcard>
    var tags: seq<Tag>

    /**
     * Unique ids for cards and for tags, unique tag names (a name is only ever
     * inserted when no stored tag has it), a valid scheduler state on every
     * card, and every tag a card refers to is stored.
     */
    ghost predicate Valid()
      reads this, flashcards, tags
    {
      && DistinctCardIds(flashcards)
      && DistinctTagIds(tags)
      && DistinctTagNames(tags)
      && (forall c :: c in flashcards ==> c.State().Valid())
      && (forall c, t :: c in flashcards && t in c.tags ==> t in tags)
    }

    constructor ()
      ensures Valid() && flashcards == [] && tags == []
    {
      flashcards := [];
      tags := [];
    }

    /** `modelContext.insert(tag)`: a tag with an unused id and an unused name is stored after the others. */
    method InsertTag(tag: Tag)
      requires Valid()
      requires forall t :: t in tags ==> t.id != tag.id && t.name != tag.name
      modifies this`tags
      ensures Valid()
      ensures tags == old(tags) + [tag]
    {
      tags := tags + [tag];
    }

    /**
     * `modelContext.insert(flashcard)`: a card with an unused id, a valid
     * scheduler state and only stored tags is stored after the others.
     */
    method InsertFlashcard(card: Flashcard)
      requires Valid()
      requires forall c :: c in flashcards ==> c.id != card.id
      requires card.State().Valid() && forall t :: t in card.tags ==> t in tags
      modifies this`flashcards
      ensures Valid()
      ensures flashcards == old(flashcards) + [card]
    {
      flashcards := flashcards + [card];
    }

    /**
     * `modelContext.delete(card)`: exactly that card leaves the store; the other
     * cards keep their order, and the tags stay, even those no card uses any more.
     */
    method DeleteFlashcard(card: Flashcard)
      requires Valid()
      modifies this`flashcards
      ensures Valid()
      ensures flashcards == Without(old(flashcards), card) && tags == old(tags)
      ensures card in old(flashcards) ==> |flashcards| == |old(flashcards)| - 1
      ensures card !in old(flashcards) ==> flashcards == old(flashcards)
    {
      WithoutKeepsDistinctIds(flashcards, card);
      if card in flashcards {
        DistinctIdsOccurOnce(flashcards, card);
        WithoutOnce(flashcards, card);
      } else {
        WithoutAbsent(flashcards, card);
      }
      flashcards := Without(flashcards, card);
    }
  }
}
