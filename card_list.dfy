/**
 * The card list: the tag menu sorted by name, the three optional filters
 * applied one after the other, tag selection by tapping, and deletion.
 */
module CardList {
  import opened Seqs
  import opened Text
  import opened Cards
  import opened CardFilter

  /** `a` may come before `b` in name order: `b.name < a.name` does not hold. */
  predicate NameAtMost(a: Tag, b: Tag)
    reads a, b
  {
    !Less(b.name, a.name)
  }

  /** No tag has a name less than that of a tag before it. */
  ghost predicate SortedByName(tags: seq<Tag>)
    reads set t | t in tags
  {
    forall i, j :: 0 <= i < j < |tags| ==> NameAtMost(tags[i], tags[j])
  }

  /** The name order is transitive. */
  lemma NameAtMostTransitive(a: Tag, b: Tag, c: Tag)
    requires NameAtMost(a, b) && NameAtMost(b, c)
    ensures NameAtMost(a, c)
  {
    if Less(c.name, a.name) {
      if a.name == b.name {
      } else {
        LessTotal(a.name, b.name);
        LessTransitive(c.name, a.name, b.name);
      }
    }
  }

  /** A tag that may come before every tag of a sorted sequence may be put in front of it. */
  lemma SortedCons(t: Tag, sorted: seq<Tag>)
    requires SortedByName(sorted)
    requires forall u :: u in sorted ==> NameAtMost(t, u)
    ensures SortedByName([t] + sorted)
  {
    var r := [t] + sorted;
    forall i, j | 0 <= i < j < |r| ensures NameAtMost(r[i], r[j]) {
      if i == 0 {
        assert r[j] == sorted[j - 1];
      } else {
        assert r[i] == sorted[i - 1] && r[j] == sorted[j - 1];
      }
    }
  }

  /** A tag that may come before the head of a sorted sequence may come before all of it. */
  lemma BeforeHead(t: Tag, sorted: seq<Tag>)
    requires sorted != [] && SortedByName(sorted) && NameAtMost(t, sorted[0])
    ensures forall u :: u in sorted ==> NameAtMost(t, u)
  {
    forall u | u in sorted ensures NameAtMost(t, u) {
      var j :| 0 <= j < |sorted| && sorted[j] == u;
      if j > 0 { NameAtMostTransitive(t, sorted[0], u); }
    }
  }

  /** The head of a sorted sequence may come before whatever is inserted behind it. */
  lemma HeadBeforeRest(t: Tag, sorted: seq<Tag>, rest: seq<Tag>)
    requires sorted != [] && SortedByName(sorted) && Less(sorted[0].name, t.name)
    requires multiset(rest) == multiset(sorted[1..]) + multiset{t}
    ensures forall u :: u in rest ==> NameAtMost(sorted[0], u)
  {
    forall u | u in rest ensures NameAtMost(sorted[0], u) {
      assert u in multiset(rest);
      if u != t {
        assert u in multiset(sorted[1..]);
        var j :| 0 <= j < |sorted[1..]| && sorted[1..][j] == u;
        assert sorted[j + 1] == u;
      } else {
        LessIrreflexive(t.name);
        if Less(t.name, sorted[0].name) {
          LessTransitive(t.name, sorted[0].name, t.name);
        }
      }
    }
  }

  /** Puts `t` into the name-sorted `sorted` just before the first tag whose name is not less. */
  function InsertByName(t: Tag, sorted: seq<Tag>): (r: seq<Tag>)
    requires SortedByName(sorted)
    reads t, set u | u in sorted
    ensures multiset(r) == multiset(sorted) + multiset{t}
    ensures forall u :: u in r ==> u == t || u in sorted
    ensures SortedByName(r)
    decreases |sorted|
  {
    if sorted == [] then [t]
    else if !Less(sorted[0].name, t.name) then
      BeforeHead(t, sorted);
      SortedCons(t, sorted);
      [t] + sorted
    else
      assert SortedByName(sorted[1..]) by {
        forall i, j | 0 <= i < j < |sorted[1..]| ensures NameAtMost(sorted[1..][i], sorted[1..][j]) {
          assert sorted[1..][i] == sorted[i + 1] && sorted[1..][j] == sorted[j + 1];
        }
      }
      var rest := InsertByName(t, sorted[1..]);
      HeadBeforeRest(t, sorted, rest);
      SortedCons(sorted[0], rest);
      assert sorted == [sorted[0]] + sorted[1..];
      [sorted[0]] + rest
  }

  /** `sorted { $0.name < $1.name }`: the same tags, in ascending name order. */
  function SortByName(tags: seq<Tag>): (r: seq<Tag>)
    reads set t | t in tags
    ensures multiset(r) == multiset(tags)
    ensures forall u :: u in r ==> u in tags
    ensures SortedByName(r)
    decreases |tags|
  {
    if tags == [] then []
    else
      var sortedRest := SortByName(tags[1..]);
      assert tags == [tags[0]] + tags[1..];
      InsertByName(tags[0], sortedRest)
  }

  /** Tapping a tag chip selects it, or deselects it when it is the selected one. */
  function Tapped(selected: Tag?, tag: Tag): (r: Tag?)
    ensures r == null <==> selected == tag
    ensures r != null ==> r == tag
  {
    if selected == tag then null else tag
  }

  /** Tapping the same tag twice restores the selection when it was empty or that tag. */
  lemma TappedTwice(selected: Tag?, tag: Tag)
    requires selected == null || selected == tag
    ensures Tapped(Tapped(selected, tag), tag) == selected
  {
  }

  /** Tapping twice from another tag lands on no selection, not on the other tag. */
  lemma TappedTwiceFromOther(selected: Tag, tag: Tag)
    requires selected != tag
    ensures Tapped(Tapped(selected, tag), tag) == null
  {
  }

  /** The state of the list screen; `store` stands for the model context and its queries. */
  class FlashcardList {
    const store: Store
    var selectedTag: Tag?
    var showRememberedOnly: bool
    var searchText: string
    var allTags: seq<Tag>

    constructor (store: Store)
      ensures this.store == store
      ensures selectedTag == null && !showRememberedOnly && searchText == "" && allTags == []
    {
      this.store := store;
      selectedTag := null;
      showRememberedOnly := false;
      searchText := "";
      allTags := [];
    }

    /** The tag menu: all loaded tags, by name. */
    function UniqueTags(): (r: seq<Tag>)
      reads this, set t | t in allTags
      ensures multiset(r) == multiset(allTags)
      ensures SortedByName(r)
    {
      SortByName(allTags)
    }

    /** The filters switched on, in the order they are applied. */
    function ActiveCriteria(): (ks: seq<Criterion>)
      reads this
      ensures IsNotRemembered in ks <==> showRememberedOnly
      ensures selectedTag != null ==> HasTag(selectedTag) in ks
      ensures searchText != "" ==> Mentions(searchText) in ks
      ensures forall k :: k in ks ==>
        || k == IsNotRemembered
        || (selectedTag != null && k == HasTag(selectedTag))
        || (searchText != "" && k == Mentions(searchText))
    {
      (if showRememberedOnly then [IsNotRemembered] else [])
      + (if selectedTag != null then [HasTag(selectedTag)] else [])
      + (if searchText != "" then [Mentions(searchText)] else [])
    }

    /**
     * The list's filter stated directly: only cards not remembered when the
     * toggle is on, only cards with the selected tag when one is selected, and
     * only cards whose front or back contains the search text, ignoring case,
     * when there is one.
     */
    predicate Shown(c: Flashcard)
      reads this, c
    {
      && (showRememberedOnly ==> c.status == NotRemembered)
      && (selectedTag != null ==> selectedTag in c.tags)
      && (searchText != "" ==> ContainsIgnoringCase(c.frontText, searchText) || ContainsIgnoringCase(c.backText, searchText))
    }

    /** A card passes the active criteria exactly when it is to be shown. */
    lemma ActiveCriteriaMeaning(c: Flashcard)
      ensures (forall k :: k in ActiveCriteria() ==> Holds(c, k)) <==> Shown(c)
    {
      var ks := ActiveCriteria();
      if showRememberedOnly { assert IsNotRemembered in ks; }
      if selectedTag != null { assert HasTag(selectedTag) in ks; }
      if searchText != "" { assert Mentions(searchText) in ks; }
    }

    /**
     * `filteredFlashcards`: the stored cards that are to be shown, in store order;
     * with no filter switched on, all stored cards.
     */
    method FilteredFlashcards() returns (filtered: seq<Flashcard>)
      ensures filtered == KeepAll(store.flashcards, ActiveCriteria())
      ensures forall c :: c in filtered ==> c in store.flashcards && Shown(c)
      ensures forall c :: c in store.flashcards && Shown(c) ==> c in filtered
      ensures Subsequence(filtered, store.flashcards)
      ensures !showRememberedOnly && selectedTag == null && searchText == "" ==> filtered == store.flashcards
    {
      ghost var applied: seq<Criterion> := [];
      filtered := store.flashcards;

      if showRememberedOnly {
        ghost var before := applied;
        filtered := Keep(filtered, IsNotRemembered);
        applied := applied + [IsNotRemembered];
        assert filtered == KeepAll(store.flashcards, applied) by {
          KeepAllSnoc(store.flashcards, before, IsNotRemembered);
        }
      }

      if selectedTag != null {
        ghost var before := applied;
        filtered := Keep(filtered, HasTag(selectedTag));
        applied := applied + [HasTag(selectedTag)];
        assert filtered == KeepAll(store.flashcards, applied) by {
          KeepAllSnoc(store.flashcards, before, HasTag(selectedTag));
        }
      }

      if searchText != "" {
        ghost var before := applied;
        filtered := Keep(filtered, Mentions(searchText));
        applied := applied + [Mentions(searchText)];
        assert filtered == KeepAll(store.flashcards, applied) by {
          KeepAllSnoc(store.flashcards, before, Mentions(searchText));
        }
      }

      assert applied == ActiveCriteria();
      FilterMeaning(store.flashcards);
    }

    /** The active criteria keep, in order, exactly the cards that are to be shown. */
    lemma FilterMeaning(cards: seq<Flashcard>)
      ensures forall c :: c in KeepAll(cards, ActiveCriteria()) ==> c in cards && Shown(c)
      ensures forall c :: c in cards && Shown(c) ==> c in KeepAll(cards, ActiveCriteria())
      ensures Subsequence(KeepAll(cards, ActiveCriteria()), cards)
    {
      KeepAllMeaning(cards, ActiveCriteria());
      forall c | c in cards {
        ActiveCriteriaMeaning(c);
      }
    }

    /** Running the filter again on what it shows changes nothing. */
    lemma FilterIdempotent()
      ensures KeepAll(KeepAll(store.flashcards, ActiveCriteria()), ActiveCriteria())
              == KeepAll(store.flashcards, ActiveCriteria())
    {
      KeepAllIdempotent(store.flashcards, ActiveCriteria());
    }

    /** Tapping a tag chip on a card. */
    method TapTag(tag: Tag)
      modifies this`selectedTag
      ensures selectedTag == Tapped(old(selectedTag), tag)
    {
      selectedTag := if selectedTag == tag then null else tag;
    }

    /** Picking a tag from the tag menu. */
    method SelectTag(tag: Tag)
      modifies this`selectedTag
      ensures selectedTag == tag
    {
      selectedTag := tag;
    }

    /** "All Tags" in the tag menu: no tag filter. */
    method ShowAllTags()
      modifies this`selectedTag
      ensures selectedTag == null
    {
      selectedTag := null;
    }

    /** `deleteFlashcard`: the card leaves the store; nothing else changes, not even the tag list. */
    method DeleteFlashcard(card: Flashcard)
      requires store.Valid()
      modifies store`flashcards
      ensures store.Valid()
      ensures store.flashcards == Without(old(store.flashcards), card)
      ensures store.tags == old(store.tags)
      ensures card in old(store.flashcards) ==> |store.flashcards| == |old(store.flashcards)| - 1
    {
      store.DeleteFlashcard(card);
    }

    /** `loadAllTags`: the menu's tags become every stored tag. */
    method LoadAllTags()
      modifies this`allTags
      ensures allTags == store.tags
    {
      allTags := store.tags;
    }
  }
}
