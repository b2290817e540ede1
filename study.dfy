/**
 * The study screen: the SM-2 variant that reschedules a card after a rating,
 * the set of cards due for review, and the session that walks through a
 * snapshot of that set one card at a time.
 */
module Study {
  import opened Seqs
  import opened Cards
  import opened CardFilter

  /** The easiness factor never drops below 1.3. */
  const MinEasiness := 130

  function Max(a: int, b: int): int
  {
    if a < b then b else a
  }

  /**
   * The change of the easiness factor for a quality, in hundredths:
   * 0.1 - (5 - q) * (0.08 + (5 - q) * 0.02).
   */
  function EasinessDelta(quality: int): (delta: int)
    requires 0 <= quality <= 5
    ensures -80 <= delta <= 10
    ensures delta > 0 <==> quality == 5
    ensures delta == 0 <==> quality == 4
    ensures delta < 0 <==> quality <= 3
  {
    10 - (5 - quality) * (8 + (5 - quality) * 2)
  }

  /** The six deltas: +0.10, 0, -0.14, -0.32, -0.54 and -0.80 for qualities 5 down to 0. */
  lemma EasinessDeltaTable()
    ensures EasinessDelta(5) == 10 && EasinessDelta(4) == 0 && EasinessDelta(3) == -14
    ensures EasinessDelta(2) == -32 && EasinessDelta(1) == -54 && EasinessDelta(0) == -80
  {
  }

  /**
   * `Int(Double(interval) * ef)`: the interval stretched by the easiness factor
   * (in hundredths) and truncated to whole days.
   */
  function Grown(interval: int, easiness: int): (r: int)
    requires interval >= 0 && easiness >= 100
    ensures r * 100 <= interval * easiness < (r + 1) * 100
    ensures r >= interval
  {
    assert interval * easiness >= interval * 100 by {
      MulMonotone(interval, 100, easiness);
    }
    (interval * easiness) / 100
  }

  lemma MulMonotone(a: int, b: int, c: int)
    requires a >= 0 && b <= c
    ensures a * b <= a * c
  {
  }

  /** The new scheduler state after a rating of `quality`; always valid, with an interval of a day or more. */
  function Schedule(m: Memory, quality: int): (r: Memory)
    requires m.Valid() && 0 <= quality <= 5
    ensures r.Valid() && r.interval >= 1
  {
    var repetitions := if quality >= 3 then m.repetitions + 1 else 0;
    var interval :=
      if quality < 3 then 1
      else if m.repetitions == 0 then 1
      else if m.repetitions == 1 then 6
      else Grown(m.interval, m.easinessFactor);
    Memory(Max(MinEasiness, m.easinessFactor + EasinessDelta(quality)), repetitions, interval)
  }

  /** A pass on a new card schedules it for the next day. */
  lemma PassFromNew(m: Memory, quality: int)
    requires m.Valid() && 3 <= quality <= 5 && m.repetitions == 0
    ensures Schedule(m, quality).interval == 1 && Schedule(m, quality).repetitions == 1
  {
  }

  /** A second pass in a row schedules the card six days ahead. */
  lemma PassFromFirst(m: Memory, quality: int)
    requires m.Valid() && 3 <= quality <= 5 && m.repetitions == 1
    ensures Schedule(m, quality).interval == 6 && Schedule(m, quality).repetitions == 2
  {
  }

  /** Later passes stretch the interval by the old easiness factor, so it never shrinks. */
  lemma PassLater(m: Memory, quality: int)
    requires m.Valid() && 3 <= quality <= 5 && m.repetitions >= 2
    ensures Schedule(m, quality).repetitions == m.repetitions + 1
    ensures Schedule(m, quality).interval == Grown(m.interval, m.easinessFactor)
    ensures Schedule(m, quality).interval >= m.interval
  {
  }

  /** A fail restarts the card: no repetitions and an interval of one day, whatever the prior state. */
  lemma FailResets(m: Memory, quality: int)
    requires m.Valid() && 0 <= quality < 3
    ensures Schedule(m, quality).repetitions == 0 && Schedule(m, quality).interval == 1
  {
  }

  /**
   * The new easiness factor is the old one plus the delta, floored at 1.3:
   * quality 5 raises it by 0.1, 4 keeps it, and 3 or less lowers it unless it is at the floor.
   */
  lemma EasinessUpdate(m: Memory, quality: int)
    requires m.Valid() && 0 <= quality <= 5
    ensures Schedule(m, quality).easinessFactor == Max(MinEasiness, m.easinessFactor + EasinessDelta(quality))
    ensures Schedule(m, quality).easinessFactor >= MinEasiness
    ensures quality == 5 ==> Schedule(m, quality).easinessFactor == m.easinessFactor + 10
    ensures quality == 4 ==> Schedule(m, quality).easinessFactor == m.easinessFactor
    ensures quality <= 3 ==> m.easinessFactor + EasinessDelta(quality) < m.easinessFactor
    ensures quality <= 3 ==> Schedule(m, quality).easinessFactor < m.easinessFactor
                             || Schedule(m, quality).easinessFactor == MinEasiness
  {
  }

  /**
   * Three ratings of a new card with easiness 2.5: a 4 keeps the easiness at 2.5
   * and gives one day, a 5 raises it to 2.6 and gives six days, a 1 resets to one
   * day with easiness 2.06; and six days at easiness 1.3 stretch to 7 (7.8 truncated).
   */
  lemma RatingExamples()
    ensures Schedule(Memory(250, 0, 0), 4) == Memory(250, 1, 1)
    ensures Schedule(Memory(250, 1, 1), 5) == Memory(260, 2, 6)
    ensures Schedule(Memory(260, 2, 6), 1) == Memory(206, 0, 1)
    ensures Schedule(Memory(130, 2, 6), 3) == Memory(130, 3, 7)
  {
  }

  /**
   * `updateFlashcardStatus`: rewrites the card's scheduler fields with the
   * outcome of `Schedule` and moves its review date `interval` days past `now`.
   * No other field of the card changes.
   */
  method UpdateFlashcardStatus(flashcard: Flashcard, quality: int, now: int)
    requires flashcard.State().Valid() && 0 <= quality <= 5
    modifies flashcard`easinessFactor, flashcard`repetitions, flashcard`interval, flashcard`reviewDate
    ensures flashcard.State() == Schedule(old(flashcard.State()), quality)
    ensures flashcard.reviewDate == now + flashcard.interval
    ensures flashcard.State().Valid() && flashcard.reviewDate > now
  {
    var ef := flashcard.easinessFactor;
    var repetitions := flashcard.repetitions;
    var interval := flashcard.interval;

    if quality >= 3 {
      if repetitions == 0 {
        interval := 1;
      } else if repetitions == 1 {
        interval := 6;
      } else {
        interval := Grown(interval, ef);
      }
      repetitions := repetitions + 1;
    } else {
      repetitions := 0;
      interval := 1;
    }

    ef := ef + EasinessDelta(quality);
    ef := Max(MinEasiness, ef);

    flashcard.easinessFactor := ef;
    flashcard.repetitions := repetitions;
    flashcard.interval := interval;
    flashcard.reviewDate := now + interval;
  }

  /** The caption under each rating button; empty for a number that is not a quality. */
  function RatingLabel(quality: int): (caption: string)
    ensures caption != "" <==> 0 <= quality <= 5
  {
    match quality
    case 0 => "Again"
    case 1 => "Hard"
    case 2 => "Okay"
    case 3 => "Good"
    case 4 => "Easy"
    case 5 => "Perfect"
    case _ => ""
  }

  /** The cards are in ascending order of review date, as the screen's query returns them. */
  ghost predicate SortedByReviewDate(cards: seq<Flashcard>)
    reads set c | c in cards
  {
    forall i, j :: 0 <= i < j < |cards| ==> cards[i].reviewDate <= cards[j].reviewDate
  }

  /** A filter step keeps ascending review-date order. */
  lemma {:induction false} KeepSortedByReviewDate(cards: seq<Flashcard>, k: Criterion)
    ensures SortedByReviewDate(cards) ==> SortedByReviewDate(Keep(cards, k))
    decreases |cards|
  {
    if cards != [] && SortedByReviewDate(cards) {
      var rest := cards[1..];
      assert SortedByReviewDate(rest) by {
        forall i, j | 0 <= i < j < |rest| ensures rest[i].reviewDate <= rest[j].reviewDate {
          assert rest[i] == cards[i + 1] && rest[j] == cards[j + 1];
        }
      }
      KeepSortedByReviewDate(rest, k);
      var kept := Keep(rest, k);
      forall c | c in kept ensures cards[0].reviewDate <= c.reviewDate {
        var j :| 0 <= j < |rest| && rest[j] == c;
        assert cards[j + 1] == c;
      }
    }
  }

  /**
   * `dueFlashcards`: the cards whose review date is today or earlier, in the
   * order of the query; sorted input gives sorted output.
   */
  function DueFlashcards(flashcards: seq<Flashcard>, now: int): (due: seq<Flashcard>)
    reads flashcards
    ensures forall c :: c in due ==> c in flashcards && c.reviewDate <= now
    ensures forall c :: c in flashcards && c.reviewDate <= now ==> c in due
    ensures Subsequence(due, flashcards)
    ensures SortedByReviewDate(flashcards) ==> SortedByReviewDate(due)
  {
    KeepSortedByReviewDate(flashcards, DueBy(now));
    Keep(flashcards, DueBy(now))
  }

  /** Once every card is scheduled after `now`, nothing is due on day `now`. */
  lemma {:induction false} NothingDueAfterRating(flashcards: seq<Flashcard>, now: int)
    requires forall c :: c in flashcards ==> c.reviewDate > now
    ensures DueFlashcards(flashcards, now) == []
    decreases |flashcards|
  {
    if flashcards != [] {
      assert !Holds(flashcards[0], DueBy(now));
      NothingDueAfterRating(flashcards[1..], now);
    }
  }

  /**
   * The study screen's state. A session is a fixed snapshot of the due cards;
   * `visited` (ghost) records the cards rated so far in this pass, in order.
   */
  class Session {
    var sessionFlashcards: seq<Flashcard>
    var currentIndex: int
    var isAnswerShown: bool
    var sessionStarted: bool
    var sessionCompleted: bool
    ghost var visited: seq<Flashcard>

    /**
     * The cursor stays on a card of a non-empty snapshot; a started session
     * with nothing to study is complete; the cards rated are the snapshot's
     * first ones, exactly the cards before the cursor while the session runs.
     */
    ghost predicate Valid()
      reads this
    {
      && 0 <= currentIndex
      && (sessionFlashcards == [] ==> currentIndex == 0)
      && (sessionFlashcards != [] ==> currentIndex < |sessionFlashcards|)
      && (sessionStarted && sessionFlashcards == [] ==> sessionCompleted)
      && (!sessionStarted ==> visited == [])
      && |visited| <= |sessionFlashcards| && visited == sessionFlashcards[..|visited|]
      && (InProgress() ==> |visited| == currentIndex)
    }

    /** A card is on screen: the session has started and is not complete. */
    predicate InProgress()
      reads this
    {
      sessionStarted && !sessionCompleted
    }

    constructor ()
      ensures Valid() && sessionFlashcards == [] && currentIndex == 0
      ensures !isAnswerShown && !sessionStarted && !sessionCompleted
    {
      sessionFlashcards := [];
      currentIndex := 0;
      isAnswerShown := false;
      sessionStarted := false;
      sessionCompleted := false;
      visited := [];
    }

    /** When the screen appears with nothing due, it reports completion. */
    method Appear(flashcards: seq<Flashcard>, now: int)
      requires Valid()
      modifies this`sessionCompleted
      ensures Valid()
      ensures sessionCompleted == (old(sessionCompleted) || DueFlashcards(flashcards, now) == [])
    {
      if DueFlashcards(flashcards, now) == [] {
        sessionCompleted := true;
      }
    }

    /**
     * `startSession`: snapshots the due cards, in the query's order, shows the
     * first one with its answer hidden, and is complete at once iff none is due.
     */
    method StartSession(flashcards: seq<Flashcard>, now: int)
      requires Valid()
      modifies this
      ensures Valid()
      ensures sessionFlashcards == DueFlashcards(flashcards, now)
      ensures forall c :: c in sessionFlashcards ==> c in flashcards && c.reviewDate <= now
      ensures forall c :: c in flashcards && c.reviewDate <= now ==> c in sessionFlashcards
      ensures SortedByReviewDate(flashcards) ==> SortedByReviewDate(sessionFlashcards)
      ensures currentIndex == 0 && !isAnswerShown && sessionStarted
      ensures sessionCompleted == (sessionFlashcards == [])
      ensures visited == []
    {
      sessionFlashcards := DueFlashcards(flashcards, now);
      currentIndex := 0;
      isAnswerShown := false;
      sessionStarted := true;
      sessionCompleted := sessionFlashcards == [];
      visited := [];
    }

    /** Tapping the front of the card shows or hides its answer. */
    method ToggleAnswer()
      requires Valid()
      modifies this`isAnswerShown
      ensures Valid() && isAnswerShown == !old(isAnswerShown)
    {
      isAnswerShown := !isAnswerShown;
    }

    /**
     * `showNextFlashcard`: hides the answer and moves to the next card, or
     * completes the session after the last one. The card left behind counts as visited.
     */
    method ShowNextFlashcard()
      requires Valid() && InProgress()
      modifies this`isAnswerShown, this`currentIndex, this`sessionCompleted, this`visited
      ensures Valid() && !isAnswerShown
      ensures visited == old(visited) + [sessionFlashcards[old(currentIndex)]]
      ensures old(currentIndex) < |sessionFlashcards| - 1 ==>
                currentIndex == old(currentIndex) + 1 && !sessionCompleted
      ensures old(currentIndex) == |sessionFlashcards| - 1 ==>
                currentIndex == old(currentIndex) && sessionCompleted && visited == sessionFlashcards
    {
      visited := visited + [sessionFlashcards[currentIndex]];
      isAnswerShown := false;
      if currentIndex < |sessionFlashcards| - 1 {
        currentIndex := currentIndex + 1;
      } else {
        sessionCompleted := true;
      }
    }

    /**
     * A rating button: offered while the answer is shown, it reschedules the
     * current card and moves on. Only the current card's scheduler fields and
     * review date change, and the card is no longer due on day `now`.
     */
    method Rate(quality: int, now: int)
      requires Valid() && InProgress() && isAnswerShown && 0 <= quality <= 5
      requires sessionFlashcards[currentIndex].State().Valid()
      modifies this, {sessionFlashcards[currentIndex]}`easinessFactor, {sessionFlashcards[currentIndex]}`repetitions
      modifies {sessionFlashcards[currentIndex]}`interval, {sessionFlashcards[currentIndex]}`reviewDate
      ensures Valid() && !isAnswerShown
      ensures sessionFlashcards == old(sessionFlashcards) && sessionStarted
      ensures var card := sessionFlashcards[old(currentIndex)];
        && card.State() == Schedule(old(card.State()), quality)
        && card.reviewDate == now + card.interval
        && card.reviewDate > now
        && visited == old(visited) + [card]
        && card.frontText == old(card.frontText) && card.backText == old(card.backText)
        && card.tags == old(card.tags) && card.image == old(card.image) && card.status == old(card.status)
      ensures old(currentIndex) < |sessionFlashcards| - 1 ==>
                currentIndex == old(currentIndex) + 1 && !sessionCompleted
      ensures old(currentIndex) == |sessionFlashcards| - 1 ==>
                currentIndex == old(currentIndex) && sessionCompleted && visited == sessionFlashcards
    {
      UpdateFlashcardStatus(sessionFlashcards[currentIndex], quality, now);
      ShowNextFlashcard();
    }

    /** `restartSession`: back to the start screen, which reads the live due set again. */
    method RestartSession()
      requires Valid()
      modifies this`sessionStarted, this`sessionCompleted, this`currentIndex, this`isAnswerShown, this`visited
      ensures Valid()
      ensures !sessionStarted && !sessionCompleted && currentIndex == 0 && !isAnswerShown
      ensures visited == []
    {
      sessionStarted := false;
      sessionCompleted := false;
      currentIndex := 0;
      isAnswerShown := false;
      visited := [];
    }
  }

  /** Every card of the deck is either no longer due on day `now` or still waiting in `pending`. */
  ghost predicate RatedOrPending(flashcards: seq<Flashcard>, pending: seq<Flashcard>, now: int)
    reads set c | c in flashcards
  {
    forall c :: c in flashcards ==> c.reviewDate > now || c in pending
  }

  /** Every card of the deck has a valid scheduler state. */
  ghost predicate AllValid(flashcards: seq<Flashcard>)
    reads set c | c in flashcards
  {
    forall c :: c in flashcards ==> c.State().Valid()
  }

  /**
   * The rating loop of a session: while a card is on screen, reveal its answer
   * and rate it with the next quality. Every snapshot card is visited, in order,
   * and the session completes with no card of the deck still due. Only the
   * scheduler fields and review dates of snapshot cards change.
   */
  method RateAll(session: Session, flashcards: seq<Flashcard>, now: int, qualities: seq<int>)
    requires session.Valid() && session.sessionStarted && !session.isAnswerShown && session.visited == []
    requires session.sessionCompleted ==> session.sessionFlashcards == []
    requires forall c :: c in session.sessionFlashcards ==> c in flashcards
    requires AllValid(flashcards) && RatedOrPending(flashcards, session.sessionFlashcards, now)
    requires |qualities| >= |session.sessionFlashcards| && forall q :: q in qualities ==> 0 <= q <= 5
    modifies session, (set c | c in flashcards)`easinessFactor, (set c | c in flashcards)`repetitions
    modifies (set c | c in flashcards)`interval, (set c | c in flashcards)`reviewDate
    ensures session.Valid() && session.sessionStarted && session.sessionCompleted
    ensures session.sessionFlashcards == old(session.sessionFlashcards)
    ensures session.visited == session.sessionFlashcards
    ensures AllValid(flashcards) && forall c :: c in flashcards ==> c.reviewDate > now
    ensures forall c :: c in flashcards ==> Unedited(c)
    ensures forall c :: c in flashcards && c !in session.sessionFlashcards ==>
              c.State() == old(c.State()) && c.reviewDate == old(c.reviewDate)
  {
    ghost var snapshot := session.sessionFlashcards;

    while session.InProgress()
      invariant session.Valid() && session.sessionStarted && !session.isAnswerShown
      invariant session.sessionFlashcards == snapshot
      invariant AllValid(flashcards)
      invariant RatedOrPending(flashcards, snapshot[|session.visited|..], now)
      invariant session.sessionCompleted ==> session.visited == snapshot
      invariant forall c :: c in flashcards && c !in session.visited ==>
                  c.State() == old(c.State()) && c.reviewDate == old(c.reviewDate)
      decreases |snapshot| - |session.visited|
    {
      session.ToggleAnswer();
      ghost var before := session.visited;
      var quality := qualities[session.currentIndex];
      assert quality in qualities;
      ghost var card := snapshot[|before|];
      assert card in flashcards;
      session.Rate(quality, now);
      assert session.visited == before + [card];
      forall c | c in flashcards && c.reviewDate <= now ensures c in snapshot[|session.visited|..] {
        assert c in snapshot[|before|..] && c != card;
        var k :| |before| <= k < |snapshot| && snapshot[k] == c;
        assert k != |before|;
      }
    }
  }

  /** Only the scheduler fields and the review date of `c` may have changed since the start. */
  twostate predicate Unedited(c: Flashcard)
    reads c
  {
    && c.frontText == old(c.frontText) && c.backText == old(c.backText)
    && c.tags == old(c.tags) && c.image == old(c.image) && c.status == old(c.status)
  }

  /**
   * A whole study session driven through the screen's actions: start, then for
   * each card reveal the answer and rate it with the next quality. Every due card
   * is visited once, in order, the session completes, and afterwards no card of
   * the deck is due on day `now`: restarting that day finds nothing to study.
   * Cards that were not due keep their review date and scheduler state, and no
   * card's text, tags, image or status changes.
   */
  method StudyAllDue(flashcards: seq<Flashcard>, now: int, qualities: seq<int>) returns (session: Session)
    requires forall c :: c in flashcards ==> c.State().Valid()
    requires |qualities| >= |flashcards| && forall q :: q in qualities ==> 0 <= q <= 5
    modifies (set c | c in flashcards)`easinessFactor, (set c | c in flashcards)`repetitions
    modifies (set c | c in flashcards)`interval, (set c | c in flashcards)`reviewDate
    ensures fresh(session) && session.Valid()
    ensures session.sessionStarted && session.sessionCompleted
    ensures session.sessionFlashcards == old(DueFlashcards(flashcards, now))
    ensures session.visited == session.sessionFlashcards
    ensures forall c :: c in flashcards ==> c.reviewDate > now && c.State().Valid()
    ensures DueFlashcards(flashcards, now) == []
    ensures forall c :: c in flashcards ==> Unedited(c)
    ensures forall c :: c in flashcards && old(c.reviewDate) > now ==>
              c.State() == old(c.State()) && c.reviewDate == old(c.reviewDate)
  {
    ghost var due := DueFlashcards(flashcards, now);
    session := new Session();
    session.StartSession(flashcards, now);
    assert session.sessionFlashcards == due;
    assert forall c :: c in flashcards ==>
      Unedited(c) && c.State() == old(c.State()) && c.reviewDate == old(c.reviewDate);
    SubsequenceLength(due, flashcards);
    RateAll(session, flashcards, now, qualities);
    NothingDueAfterRating(flashcards, now);
  }

  /**
   * The study screen over the store's cards: the same session as `StudyAllDue`,
   * and the store's invariant still holds afterwards.
   */
  method StudyStore(store: Store, now: int, qualities: seq<int>) returns (session: Session)
    requires store.Valid()
    requires |qualities| >= |store.flashcards| && forall q :: q in qualities ==> 0 <= q <= 5
    modifies (set c | c in store.flashcards)`easinessFactor, (set c | c in store.flashcards)`repetitions
    modifies (set c | c in store.flashcards)`interval, (set c | c in store.flashcards)`reviewDate
    ensures store.Valid()
    ensures fresh(session) && session.sessionCompleted
    ensures session.visited == old(DueFlashcards(store.flashcards, now))
    ensures DueFlashcards(store.flashcards, now) == []
  {
    session := StudyAllDue(store.flashcards, now, qualities);
  }
}
