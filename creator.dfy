/** The card creation form (src/components/CardCreator.tsx): the word being
    typed, the attached audio reference and the "creating" flag. Its
    `onAddCard` callback is the page's `AddCard`. */
module Creator {
  import opened Cards
  import opened Library

  class CardCreator {
    var word: string
    var audioUrl: Option<string>
    var isCreating: bool
    /** The page whose `addCard` is passed in as `onAddCard`. */
    const owner: IndexPage

    /** A fresh form: empty word, no audio, not creating. */
    constructor (owner: IndexPage)
      ensures this.owner == owner
      ensures word == "" && audioUrl == None && !isCreating
    {
      this.owner := owner;
      word := "";
      audioUrl := None;
      isCreating := false;
    }

    /** The submit button's `disabled={isCreating || !word.trim()}`, negated:
        the button can be pressed exactly when no card is being created and
        the word holds a character other than whitespace. */
    predicate SubmitEnabled(): (b: bool)
      reads this
      ensures b <==> !isCreating && exists k :: 0 <= k < |word| && !IsWhitespace(word[k])
    {
      !isCreating && !IsBlank(word)
    }

    /** The word input's `onChange`; the input is disabled while creating. */
    method EditWord(text: string)
      requires !isCreating
      modifies this`word
      ensures word == text
    {
      word := text;
    }

    /** `onAudioChange` from the audio widget: a new reference or `null`. */
    method SetAudio(url: Option<string>)
      modifies this`audioUrl
      ensures audioUrl == url
    {
      audioUrl := url;
    }

    /** `handleSubmit`. A blank word is refused: nothing is emitted and the
        form and the page are untouched. Otherwise the card built from the
        trimmed word and the current audio reference is handed to the page
        exactly once, and the form is reset. `id` and `now` stand for
        `Date.now()`. */
    method HandleSubmit(id: string, now: int) returns (created: Option<Card>)
      modifies this, owner
      ensures created == NewCard(old(word), old(audioUrl), id, now)
      ensures created.None? <==> IsBlank(old(word))
      ensures old(SubmitEnabled()) ==> created.Some?
      ensures created.None? ==>
        word == old(word) && audioUrl == old(audioUrl) && isCreating == old(isCreating)
        && owner.cards == old(owner.cards) && owner.activeTab == old(owner.activeTab)
      ensures created.Some? ==>
        created.value.word == Trim(old(word)) && created.value.audioUrl == old(audioUrl)
        && owner.cards == old(owner.cards) + [created.value] && owner.activeTab == Study
        && word == "" && audioUrl == None && !isCreating
    {
      if IsBlank(word) {
        return None;
      }
      isCreating := true;
      var card := Card(id, Trim(word), audioUrl, now);
      owner.AddCard(card);
      word := "";
      audioUrl := None;
      isCreating := false;
      created := Some(card);
    }
  }
}
