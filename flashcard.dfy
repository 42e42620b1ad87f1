/** One card on screen (src/components/Flashcard.tsx): a face that flips
    between audio and dictionary, a playback flag, and the dictionary link. */
module Face {
  import opened Cards

  /** The fixed part of the dictionary link. */
  const DictionaryPrefix: string := "https://www.ldoceonline.com/dictionary/"

  predicate IsUpper(c: char)
  {
    'A' <= c <= 'Z'
  }

  /** ASCII lower-casing of one character. */
  function LowerChar(c: char): (r: char)
    ensures !IsUpper(r)
    ensures IsUpper(c) ==> r as int == c as int + 32
    ensures !IsUpper(c) ==> r == c
  {
    if IsUpper(c) then (c as int + 32) as char else c
  }

  /** `toLowerCase` over ASCII: same length, each character lower-cased. */
  function Lower(s: string): (r: string)
    ensures |r| == |s|
    ensures forall k :: 0 <= k < |s| ==> r[k] == LowerChar(s[k])
  {
    if s == [] then [] else [LowerChar(s[0])] + Lower(s[1..])
  }

  /** Lower-casing a lower-cased word changes nothing. */
  lemma LowerIdempotent(s: string)
    ensures Lower(Lower(s)) == Lower(s)
  {
  }

  /** `dictionaryUrl`: the fixed prefix followed by the lower-cased word, so
      the link has no upper-case letter after the prefix and grows with the
      word one character per character. */
  function DictionaryUrl(word: string): (url: string)
    ensures |url| == |DictionaryPrefix| + |word|
    ensures url[..|DictionaryPrefix|] == DictionaryPrefix
    ensures forall k :: |DictionaryPrefix| <= k < |url| ==>
      url[k] == LowerChar(word[k - |DictionaryPrefix|]) && !IsUpper(url[k])
  {
    DictionaryPrefix + Lower(word)
  }

  /** Words that differ only in letter case lead to the same entry. */
  lemma DictionaryUrlIgnoresCase(word: string)
    ensures DictionaryUrl(Lower(word)) == DictionaryUrl(word)
  {
  }

  /** What stops a playback that was started. */
  datatype StopReason = Ended | Failed | Rejected

  class Flashcard {
    /** The props: the word, the audio reference (`audioUrl?: string`), and
        whether an `onFlip` callback was passed. The deck renders one
        `Flashcard` without a `key`, so moving to another card only replaces
        these. */
    var word: string
    var audioUrl: Option<string>
    var hasOnFlip: bool
    var isFlipped: bool
    var isPlaying: bool

    /** Mounting: audio face up, nothing playing. */
    constructor (word: string, audioUrl: Option<string>, hasOnFlip: bool)
      ensures this.word == word && this.audioUrl == audioUrl && this.hasOnFlip == hasOnFlip
      ensures !isFlipped && !isPlaying
    {
      this.word := word;
      this.audioUrl := audioUrl;
      this.hasOnFlip := hasOnFlip;
      isFlipped := false;
      isPlaying := false;
    }

    /** The play button: drawn only for a card with audio, disabled while
        playing. */
    predicate PlayEnabled(): (b: bool)
      reads this
      ensures b ==> audioUrl.Some? && |audioUrl.value| > 0 && !isPlaying
      ensures audioUrl.Some? && |audioUrl.value| > 0 && !isPlaying ==> b
    {
      HasAudio(audioUrl) && !isPlaying
    }

    /** A re-render with the props of another card: the same instance is
        kept, so the face shown and the playing flag carry over. A card left
        on its dictionary side shows the next word's dictionary side, and
        while an earlier clip still plays, play stays disabled. */
    method ReceiveProps(word: string, audioUrl: Option<string>, hasOnFlip: bool)
      modifies this`word, this`audioUrl, this`hasOnFlip
      ensures this.word == word && this.audioUrl == audioUrl && this.hasOnFlip == hasOnFlip
      ensures isFlipped == old(isFlipped) && isPlaying == old(isPlaying)
      ensures isPlaying ==> !PlayEnabled()
    {
      this.word := word;
      this.audioUrl := audioUrl;
      this.hasOnFlip := hasOnFlip;
    }

    /** `handleFlip`: turns the card over and notifies `onFlip` exactly once
        when one was given (`notified`). */
    method HandleFlip() returns (notified: bool)
      modifies this`isFlipped
      ensures isFlipped == !old(isFlipped)
      ensures notified == hasOnFlip
    {
      isFlipped := !isFlipped;
      notified := hasOnFlip;
    }

    /** `playAudio`: without a (non-empty) audio reference nothing happens;
        otherwise playback starts, and the play button is disabled until it
        stops. */
    method PlayAudio() returns (started: bool)
      modifies this`isPlaying
      ensures started == HasAudio(audioUrl)
      ensures isPlaying == (started || old(isPlaying))
      ensures started ==> !PlayEnabled()
    {
      if !HasAudio(audioUrl) {
        return false;
      }
      isPlaying := true;
      started := true;
    }

    /** The `onended` and `onerror` handlers and the `play()` rejection
        handler: each clears the playing flag. */
    method PlaybackStopped(reason: StopReason)
      modifies this`isPlaying
      ensures !isPlaying
      ensures PlayEnabled() == HasAudio(audioUrl)
    {
      isPlaying := false;
    }
  }

  /** Flipping twice shows the original face again. */
  method FlipTwice(card: Flashcard)
    modifies card
    ensures card.isFlipped == old(card.isFlipped)
    ensures card.isPlaying == old(card.isPlaying)
  {
    var _ := card.HandleFlip();
    var _ := card.HandleFlip();
  }
}
