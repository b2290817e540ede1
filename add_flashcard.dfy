/**
 * The add/edit form: typing a tag name creates or reuses a tag, tapping a tag
 * selects or deselects it, the tag row is filtered by the typed text, and
 * saving either updates the card being edited or inserts a new one.
 */
module AddFlashcard {
  import opened Seqs
  import opened Text
  import opened Cards

  /**
   * The tag name made from the typed text: trimmed, lower-cased, and with a
   * leading `#` unless it already starts with one.
   */
  function NormalizeTagName(input: string): (name: string)
    ensures |name| >= 1 && name[0] == '#'
  {
    var trimmed := Lowercased(Trim(input));
    if |trimmed| > 0 && trimmed[0] == '#' then trimmed else "#" + trimmed
  }

  /** The guard of `addNewTag`: a name that is more than the marker alone. */
  predicate IsAcceptedName(name: string): (accepted: bool)
    ensures |name| >= 1 && name[0] == '#' ==> (accepted <==> |name| >= 2)
  {
    name != "" && name != "#"
  }

  /**
   * A normalised name is the trimmed, lower-cased input, with one `#` put in
   * front only when the trimmed input does not start with `#`; it is lower-case.
   */
  lemma NormalizedShape(input: string)
    ensures var t := Lowercased(Trim(input));
      && (|Trim(input)| > 0 && Trim(input)[0] == '#' ==> NormalizeTagName(input) == t)
      && (|Trim(input)| == 0 || Trim(input)[0] != '#' ==> NormalizeTagName(input) == "#" + t)
    ensures Lowercased(NormalizeTagName(input)) == NormalizeTagName(input)
  {
    var t := Lowercased(Trim(input));
    LowercasedIdempotent(Trim(input));
    assert Lowercased("#" + t) == "#" + Lowercased(t) by {
      assert Lowercased("#" + t)[0] == '#';
    }
  }

  /** Empty, blank and bare-marker input (white space aside) is exactly what gets rejected. */
  lemma RejectedNames(input: string)
    ensures !IsAcceptedName(NormalizeTagName(input)) <==> Trim(input) == "" || Trim(input) == "#"
  {
    var s := Trim(input);
    var t := Lowercased(s);
    if |s| == 1 {
      assert t == [LowerChar(s[0])];
    }
    if !IsAcceptedName(NormalizeTagName(input)) {
      assert t == "" || t == "#";
      assert |s| == |t|;
      if |s| == 1 {
        assert s[0] == '#';
        assert s == "#";
      }
    }
  }

  /** The typed case does not matter: `Foo`, `foo` and `FOO` give the same name. */
  lemma {:induction false} NormalizeIgnoresCase(input: string)
    ensures NormalizeTagName(Lowercased(input)) == NormalizeTagName(input)
  {
    TrimLowercased(input);
    LowercasedIdempotent(Trim(input));
  }

  /** Input with no surrounding white space and no marker gets one marker in front of its lower-cased form. */
  lemma NormalizeUnmarked(input: string)
    requires input != [] && !IsWhitespace(input[0]) && !IsWhitespace(input[|input| - 1])
    requires input[0] != '#'
    ensures NormalizeTagName(input) == "#" + Lowercased(input)
  {
    TrimUnpadded(input);
  }

  /** Input with no surrounding white space that starts with the marker is only lower-cased. */
  lemma NormalizeMarked(input: string)
    requires input != [] && input[0] == '#' && !IsWhitespace(input[|input| - 1])
    ensures NormalizeTagName(input) == Lowercased(input)
  {
    TrimUnpadded(input);
  }

  /** Typing the marker in front of an unpadded, unmarked name gives the same tag name as leaving it out. */
  lemma NormalizeMarkerOptional(input: string)
    requires input != [] && !IsWhitespace(input[0]) && !IsWhitespace(input[|input| - 1])
    requires input[0] != '#'
    ensures NormalizeTagName("#" + input) == NormalizeTagName(input)
  {
    NormalizeUnmarked(input);
    var marked := "#" + input;
    assert marked[|marked| - 1] == input[|input| - 1];
    NormalizeMarked(marked);
    assert Lowercased(marked) == "#" + Lowercased(input) by {
      LowercasedSlice(marked, 1, |marked|);
      assert marked[1..] == input;
    }
  }

  /** `Foo` names the tag `#foo`. */
  lemma NormalizeFoo()
    ensures NormalizeTagName("Foo") == "#foo"
  {
    var foo := "Foo";
    NormalizeUnmarked(foo);
    assert Lowercased(foo) == "foo" by {
      assert forall i :: 0 <= i < 3 ==> Lowercased(foo)[i] == "foo"[i];
    }
  }

  /** `foo` names the same tag as `Foo`. */
  lemma NormalizeLowerFoo()
    ensures NormalizeTagName("foo") == NormalizeTagName("Foo")
  {
    var foo := "Foo";
    NormalizeIgnoresCase(foo);
    assert Lowercased(foo) == "foo" by {
      assert forall i :: 0 <= i < 3 ==> Lowercased(foo)[i] == "foo"[i];
    }
  }

  /** `#FOO` names the same tag as `Foo`. */
  lemma NormalizeMarkedFoo()
    ensures NormalizeTagName("#FOO") == NormalizeTagName("Foo")
  {
    var marked := "#FOO";
    NormalizeMarked(marked);
    assert Lowercased(marked) == "#foo" by {
      assert forall i :: 0 <= i < 4 ==> Lowercased(marked)[i] == "#foo"[i];
    }
    NormalizeFoo();
  }

  /** White space around the typed text does not matter. */
  lemma NormalizeIgnoresPadding(input: string)
    ensures NormalizeTagName(Trim(input)) == NormalizeTagName(input)
  {
    TrimIdempotent(input);
  }

  /** `tags.first(where: { $0.name == name })`. */
  function FirstNamed(tags: seq<Tag>, name: string): (r: Option<Tag>)
    reads tags
    ensures r.None? ==> forall t :: t in tags ==> t.name != name
    ensures r.Some? ==> r.value in tags && r.value.name == name
    decreases |tags|
  {
    if tags == [] then None
    else if tags[0].name == name then Some(tags[0])
    else FirstNamed(tags[1..], name)
  }

  /** The tag found is the first one with that name: every tag before it has another name. */
  lemma {:induction false} FirstNamedIsFirst(tags: seq<Tag>, name: string)
    requires FirstNamed(tags, name).Some?
    ensures exists i :: 0 <= i < |tags| && tags[i] == FirstNamed(tags, name).value
                        && forall j :: 0 <= j < i ==> tags[j].name != name
    decreases |tags|
  {
    if tags[0].name != name {
      FirstNamedIsFirst(tags[1..], name);
      var i :| 0 <= i < |tags[1..]| && tags[1..][i] == FirstNamed(tags, name).value
               && forall j :: 0 <= j < i ==> tags[1..][j].name != name;
      assert tags[i + 1] == FirstNamed(tags, name).value;
      forall j | 0 <= j < i + 1 ensures tags[j].name != name {
        if j > 0 { assert tags[j] == tags[1..][j - 1]; }
      }
    } else {
      assert tags[0] == FirstNamed(tags, name).value;
    }
  }

  /** With unique names, the tag found is the only tag with that name. */
  lemma FirstNamedOnly(tags: seq<Tag>, name: string)
    requires DistinctTagNames(tags) && FirstNamed(tags, name).Some?
    ensures forall t :: t in tags && t.name == name ==> t == FirstNamed(tags, name).value
  {
    FirstNamedIsFirst(tags, name);
    var i :| 0 <= i < |tags| && tags[i] == FirstNamed(tags, name).value
             && forall j :: 0 <= j < i ==> tags[j].name != name;
    forall t | t in tags && t.name == name ensures t == tags[i] {
      var k :| 0 <= k < |tags| && tags[k] == t;
      if k != i {
        assert k > i;
      }
    }
  }

  /** `selectedTags` with the membership of `tag` flipped. */
  function Toggled(selected: set<Tag>, tag: Tag): (r: set<Tag>)
    ensures tag in r <==> tag !in selected
    ensures forall t :: t in selected && t != tag ==> t in r
    ensures forall t :: t in r && t != tag ==> t in selected
  {
    if tag in selected then selected - {tag} else selected + {tag}
  }

  /** Toggling the same tag twice restores the selection. */
  lemma ToggledTwice(selected: set<Tag>, tag: Tag)
    ensures Toggled(Toggled(selected, tag), tag) == selected
  {
  }

  /** The typed text occurs in the tag's name, ignoring case. */
  predicate NameMatches(t: Tag, query: string)
    reads t
  {
    ContainsIgnoringCase(t.name, query)
  }

  /** Some tag of `tags` matches `query`. */
  predicate AnyMatches(tags: seq<Tag>, query: string)
    reads tags
  {
    exists i :: 0 <= i < |tags| && NameMatches(tags[i], query)
  }

  /** The tags whose name contains `query`, ignoring case, in their original order. */
  function TagsMatching(tags: seq<Tag>, query: string): (r: seq<Tag>)
    reads tags
    ensures forall t :: t in r ==> t in tags && NameMatches(t, query)
    ensures forall t :: t in tags && NameMatches(t, query) ==> t in r
    ensures Subsequence(r, tags)
    decreases |tags|
  {
    if tags == [] then []
    else if NameMatches(tags[0], query) then [tags[0]] + TagsMatching(tags[1..], query)
    else TagsMatching(tags[1..], query)
  }

  /** Nothing is left exactly when no tag matches. */
  lemma TagsMatchingEmpty(tags: seq<Tag>, query: string)
    ensures TagsMatching(tags, query) == [] <==> !AnyMatches(tags, query)
  {
    var r := TagsMatching(tags, query);
    if r != [] {
      assert r[0] in tags;
      var i :| 0 <= i < |tags| && tags[i] == r[0];
      assert NameMatches(tags[i], query);
    }
    if AnyMatches(tags, query) {
      var i :| 0 <= i < |tags| && NameMatches(tags[i], query);
      assert tags[i] in r;
    }
  }

  /** The selected tags of `tags`, in order. */
  function SelectedOf(tags: seq<Tag>, selected: set<Tag>): (r: seq<Tag>)
    ensures forall t :: t in r ==> t in selected
    decreases |tags|
  {
    if tags == [] then []
    else if tags[0] in selected then [tags[0]] + SelectedOf(tags[1..], selected)
    else SelectedOf(tags[1..], selected)
  }

  /** The unselected tags of `tags`, in order. */
  function UnselectedOf(tags: seq<Tag>, selected: set<Tag>): (r: seq<Tag>)
    ensures forall t :: t in r ==> t !in selected
    decreases |tags|
  {
    if tags == [] then []
    else if tags[0] !in selected then [tags[0]] + UnselectedOf(tags[1..], selected)
    else UnselectedOf(tags[1..], selected)
  }

  lemma {:induction false} PartitionPermutes(tags: seq<Tag>, selected: set<Tag>)
    ensures multiset(SelectedOf(tags, selected)) + multiset(UnselectedOf(tags, selected)) == multiset(tags)
    decreases |tags|
  {
    if tags != [] {
      PartitionPermutes(tags[1..], selected);
      assert tags == [tags[0]] + tags[1..];
    }
  }

  /** Each part keeps the order of `tags`. */
  lemma {:induction false} PartitionKeepsOrder(tags: seq<Tag>, selected: set<Tag>)
    ensures Subsequence(SelectedOf(tags, selected), tags)
    ensures Subsequence(UnselectedOf(tags, selected), tags)
    decreases |tags|
  {
    if tags != [] {
      var rest := tags[1..];
      PartitionKeepsOrder(rest, selected);
      if tags[0] in selected {
        assert SelectedOf(tags, selected)[1..] == SelectedOf(rest, selected);
      } else {
        assert UnselectedOf(tags, selected)[1..] == UnselectedOf(rest, selected);
      }
    }
  }

  /** No unselected tag comes before a selected one. */
  ghost predicate SelectedBeforeUnselected(tags: seq<Tag>, selected: set<Tag>)
  {
    forall i, j :: 0 <= i < j < |tags| && tags[j] in selected ==> tags[i] in selected
  }

  /**
   * `r` splits after its first `k` tags into a selected part and an unselected
   * part, each taken from `tags` in the order of `tags`.
   */
  ghost predicate SplitAt(r: seq<Tag>, tags: seq<Tag>, selected: set<Tag>, k: int)
  {
    && 0 <= k <= |r|
    && (forall i :: 0 <= i < k ==> r[i] in selected)
    && (forall i :: k <= i < |r| ==> r[i] !in selected)
    && Subsequence(r[..k], tags) && Subsequence(r[k..], tags)
  }

  /**
   * A stable partition: the selected tags of `tags` in their order, then the
   * unselected ones in theirs.
   */
  ghost predicate StablyPartitioned(r: seq<Tag>, tags: seq<Tag>, selected: set<Tag>)
  {
    exists k :: SplitAt(r, tags, selected, k)
  }

  /** The two halves of a concatenation. */
  lemma JoinHalves(front: seq<Tag>, back: seq<Tag>)
    ensures (front + back)[..|front|] == front && (front + back)[|front|..] == back
  {
  }

  /** Selected tags taken in order from `tags`, then unselected ones, split after the first part. */
  lemma JoinSplits(front: seq<Tag>, back: seq<Tag>, tags: seq<Tag>, selected: set<Tag>)
    requires forall t :: t in front ==> t in selected
    requires forall t :: t in back ==> t !in selected
    requires Subsequence(front, tags) && Subsequence(back, tags)
    ensures SplitAt(front + back, tags, selected, |front|)
  {
    JoinHalves(front, back);
  }

  /** A split puts every selected tag before every unselected one. */
  lemma SplitOrdersGroups(r: seq<Tag>, tags: seq<Tag>, selected: set<Tag>, k: int)
    requires SplitAt(r, tags, selected, k)
    ensures SelectedBeforeUnselected(r, selected)
  {
    forall i, j | 0 <= i < j < |r| && r[j] in selected ensures r[i] in selected {
      assert j < k;
    }
  }

  /**
   * `sorted { selectedTags.contains($0) && !selectedTags.contains($1) }`: the
   * same tags, every selected one before every unselected one, and, since the
   * sort is stable, each group in its original order.
   */
  function SelectedFirst(tags: seq<Tag>, selected: set<Tag>): (r: seq<Tag>)
    ensures multiset(r) == multiset(tags)
    ensures SelectedBeforeUnselected(r, selected)
    ensures StablyPartitioned(r, tags, selected)
  {
    PartitionPermutes(tags, selected);
    PartitionKeepsOrder(tags, selected);
    var front, back := SelectedOf(tags, selected), UnselectedOf(tags, selected);
    JoinSplits(front, back, tags, selected);
    SplitOrdersGroups(front + back, tags, selected, |front|);
    front + back
  }

  /** Sequences that are permutations of each other have the same members. */
  lemma SameMembers(a: seq<Tag>, b: seq<Tag>)
    requires multiset(a) == multiset(b)
    ensures forall t :: t in a ==> t in b
    ensures forall t :: t in b ==> t in a
  {
    forall t | t in a ensures t in b {
      assert t in multiset(a);
    }
    forall t | t in b ensures t in a {
      assert t in multiset(b);
    }
  }

  /** `Array(selectedTags)`: the selected tags, each once, in no particular order. */
  method ArrayOf(selected: set<Tag>) returns (r: seq<Tag>)
    ensures forall t :: t in r <==> t in selected
    ensures forall i, j :: 0 <= i < j < |r| ==> r[i] != r[j]
  {
    r := [];
    var rest := selected;
    while rest != {}
      invariant forall t :: t in selected <==> t in r || t in rest
      invariant forall t :: t in r ==> t !in rest
      invariant forall i, j :: 0 <= i < j < |r| ==> r[i] != r[j]
      decreases rest
    {
      var t :| t in rest;
      r := r + [t];
      rest := rest - {t};
    }
  }

  /** The form's state; `store` stands for the model context and its tag query. */
  class AddFlashcardForm {
    const store: Store
    const flashcardToEdit: Flashcard?
    var frontText: string
    var backText: string
    var newTagText: string
    var selectedTags: set<Tag>
    var image: Option<Image>
    var showSaveSuccess: bool

    /** The store is consistent, only stored tags are selected, and an edited card is a stored one. */
    ghost predicate Valid()
      reads this, store, store.flashcards, store.tags
    {
      && store.Valid()
      && (forall t :: t in selectedTags ==> t in store.tags)
      && (flashcardToEdit != null ==> flashcardToEdit in store.flashcards)
    }

    constructor (store: Store, flashcardToEdit: Flashcard?)
      requires store.Valid()
      requires flashcardToEdit != null ==> flashcardToEdit in store.flashcards
      ensures Valid() && this.store == store && this.flashcardToEdit == flashcardToEdit
      ensures frontText == "" && backText == "" && newTagText == ""
      ensures selectedTags == {} && image == None && !showSaveSuccess
    {
      this.store := store;
      this.flashcardToEdit := flashcardToEdit;
      frontText := "";
      backText := "";
      newTagText := "";
      selectedTags := {};
      image := None;
      showSaveSuccess := false;
    }

    /** On appearing to edit a card, the form loads that card's text, tags and image. */
    method Appear()
      requires Valid()
      modifies this`frontText, this`backText, this`selectedTags, this`image
      ensures Valid()
      ensures flashcardToEdit == null ==>
        frontText == old(frontText) && backText == old(backText)
        && selectedTags == old(selectedTags) && image == old(image)
      ensures flashcardToEdit != null ==>
        frontText == flashcardToEdit.frontText && backText == flashcardToEdit.backText
        && (forall t :: t in selectedTags <==> t in flashcardToEdit.tags) && image == flashcardToEdit.image
    {
      if flashcardToEdit != null {
        frontText := flashcardToEdit.frontText;
        backText := flashcardToEdit.backText;
        selectedTags := set t | t in flashcardToEdit.tags;
        image := flashcardToEdit.image;
      }
    }

    /**
     * `filteredTags`: with empty text, all tags, selected first; otherwise the
     * tags whose name contains the text, selected first, or all tags in store
     * order when none does.
     */
    function FilteredTags(): (r: seq<Tag>)
      reads this, store, store.tags
      ensures newTagText == "" ==> multiset(r) == multiset(store.tags)
      ensures newTagText != "" && !AnyMatches(store.tags, newTagText) ==> r == store.tags
      ensures newTagText != "" && AnyMatches(store.tags, newTagText) ==>
        && (forall t :: t in r ==> t in store.tags && NameMatches(t, newTagText))
        && (forall t :: t in store.tags && NameMatches(t, newTagText) ==> t in r)
        && multiset(r) == multiset(TagsMatching(store.tags, newTagText))
      ensures newTagText == "" || AnyMatches(store.tags, newTagText) ==> SelectedBeforeUnselected(r, selectedTags)
      ensures newTagText == "" ==> StablyPartitioned(r, store.tags, selectedTags)
      ensures newTagText != "" && AnyMatches(store.tags, newTagText) ==>
        StablyPartitioned(r, TagsMatching(store.tags, newTagText), selectedTags)
    {
      var filtered := if newTagText == "" then store.tags else TagsMatching(store.tags, newTagText);
      TagsMatchingEmpty(store.tags, newTagText);
      if filtered == [] then
        assert newTagText == "" ==> SplitAt(store.tags, store.tags, selectedTags, 0);
        store.tags
      else
        var r := SelectedFirst(filtered, selectedTags);
        SameMembers(r, filtered);
        r
    }

    /**
     * `addNewTag`: a rejected name changes nothing; a name some stored tag
     * already has selects the first such tag; any other name inserts exactly
     * one new tag with that name and selects it.
     */
    method AddNewTag(newTagId: nat)
      requires Valid()
      requires forall t :: t in store.tags ==> t.id != newTagId
      modifies this`selectedTags, store`tags
      ensures Valid()
      ensures !IsAcceptedName(NormalizeTagName(newTagText)) ==>
        selectedTags == old(selectedTags) && store.tags == old(store.tags)
      ensures IsAcceptedName(NormalizeTagName(newTagText)) && old(FirstNamed(store.tags, NormalizeTagName(newTagText))).Some? ==>
        && selectedTags == old(selectedTags) + {old(FirstNamed(store.tags, NormalizeTagName(newTagText))).value}
        && store.tags == old(store.tags)
      ensures IsAcceptedName(NormalizeTagName(newTagText)) && old(FirstNamed(store.tags, NormalizeTagName(newTagText))).None? ==>
        && store.tags != [] && store.tags == old(store.tags) + [store.tags[|store.tags| - 1]]
        && fresh(store.tags[|store.tags| - 1])
        && store.tags[|store.tags| - 1].name == NormalizeTagName(newTagText)
        && store.tags[|store.tags| - 1].id == newTagId
        && selectedTags == old(selectedTags) + {store.tags[|store.tags| - 1]}
      ensures IsAcceptedName(NormalizeTagName(newTagText)) ==>
        forall t :: t in store.tags && t.name == NormalizeTagName(newTagText) ==> t in selectedTags
    {
      var trimmedTagName := NormalizeTagName(newTagText);
      SelectTagNamed(trimmedTagName, newTagId);
    }

    /**
     * The rest of `addNewTag`, for an already normalised name: the guard, then
     * reuse of the first stored tag with that name or insertion of a new one.
     */
    method SelectTagNamed(name: string, newTagId: nat)
      requires Valid()
      requires forall t :: t in store.tags ==> t.id != newTagId
      modifies this`selectedTags, store`tags
      ensures Valid()
      ensures !IsAcceptedName(name) ==>
        selectedTags == old(selectedTags) && store.tags == old(store.tags)
      ensures IsAcceptedName(name) && old(FirstNamed(store.tags, name)).Some? ==>
        && selectedTags == old(selectedTags) + {old(FirstNamed(store.tags, name)).value}
        && store.tags == old(store.tags)
      ensures IsAcceptedName(name) && old(FirstNamed(store.tags, name)).None? ==>
        && store.tags != [] && store.tags == old(store.tags) + [store.tags[|store.tags| - 1]]
        && fresh(store.tags[|store.tags| - 1])
        && store.tags[|store.tags| - 1].name == name
        && store.tags[|store.tags| - 1].id == newTagId
        && selectedTags == old(selectedTags) + {store.tags[|store.tags| - 1]}
      ensures IsAcceptedName(name) ==> forall t :: t in store.tags && t.name == name ==> t in selectedTags
    {
      if name == "" || name == "#" {
        return;
      }

      var existing := FirstNamed(store.tags, name);
      if existing.Some? {
        FirstNamedOnly(store.tags, name);
        selectedTags := selectedTags + {existing.value};
      } else {
        var newTag := new Tag(newTagId, name);
        store.InsertTag(newTag);
        selectedTags := selectedTags + {newTag};
      }
    }

    /** `toggleTagSelection`: flips whether `tag` is selected and leaves every other tag as it was. */
    method ToggleTagSelection(tag: Tag)
      requires Valid() && tag in store.tags
      modifies this`selectedTags
      ensures Valid()
      ensures selectedTags == Toggled(old(selectedTags), tag)
    {
      if tag in selectedTags {
        selectedTags := selectedTags - {tag};
      } else {
        selectedTags := selectedTags + {tag};
      }
    }

    /**
     * `saveFlashcard`, reachable only with both sides filled in: an edit
     * overwrites the card's text, tags and image and nothing else; otherwise
     * one new card, due on day `now`, is appended to the store.
     */
    method SaveFlashcard(newCardId: nat, now: int, initial: Memory)
      requires Valid() && frontText != "" && backText != ""
      requires initial.Valid()
      requires forall c :: c in store.flashcards ==> c.id != newCardId
      modifies this`showSaveSuccess, store`flashcards, flashcardToEdit
      ensures Valid() && showSaveSuccess
      ensures flashcardToEdit != null ==>
        && store.flashcards == old(store.flashcards)
        && flashcardToEdit.frontText == frontText && flashcardToEdit.backText == backText
        && (forall t :: t in flashcardToEdit.tags <==> t in selectedTags)
        && (forall i, j :: 0 <= i < j < |flashcardToEdit.tags| ==> flashcardToEdit.tags[i] != flashcardToEdit.tags[j])
        && flashcardToEdit.image == image
        && flashcardToEdit.reviewDate == old(flashcardToEdit.reviewDate)
        && flashcardToEdit.status == old(flashcardToEdit.status)
        && flashcardToEdit.State() == old(flashcardToEdit.State())
      ensures flashcardToEdit == null ==>
        && |store.flashcards| == |old(store.flashcards)| + 1
        && store.flashcards[..|old(store.flashcards)|] == old(store.flashcards)
        && var card := store.flashcards[|old(store.flashcards)|];
        && fresh(card) && card.id == newCardId
        && card.frontText == frontText && card.backText == backText
        && (forall t :: t in card.tags <==> t in selectedTags) && card.image == image
        && (forall i, j :: 0 <= i < j < |card.tags| ==> card.tags[i] != card.tags[j])
        && card.reviewDate == now && card.status == NotRemembered && card.State() == initial
    {
      var tags := ArrayOf(selectedTags);

      if flashcardToEdit != null {
        flashcardToEdit.frontText := frontText;
        flashcardToEdit.backText := backText;
        flashcardToEdit.tags := tags;
        flashcardToEdit.image := image;
      } else {
        var newFlashcard := new Flashcard(frontText, backText, tags, image, now, id := newCardId, memory := initial);
        store.InsertFlashcard(newFlashcard);
      }

      showSaveSuccess := true;
    }

    /** "Add Next": empties the form for the next card. */
    method ClearFieldsForNextEntry()
      requires Valid()
      modifies this`frontText, this`backText, this`selectedTags, this`newTagText, this`image
      ensures Valid()
      ensures frontText == "" && backText == "" && selectedTags == {} && newTagText == "" && image == None
    {
      frontText := "";
      backText := "";
      selectedTags := {};
      newTagText := "";
      image := None;
    }
  }
}
