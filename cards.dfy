/** The flashcard record and the word validation performed before a card is
    created (src/components/CardCreator.tsx). */
module Cards {

  /** `string | null` and `audioUrl?: string` of the source. */
  datatype Option<T> = None | Some(value: T)

  /** FlashcardData: an opaque id, the word, an optional audio reference and
      the creation time (milliseconds; the clock itself is a parameter). */
  datatype Card = Card(id: string, word: string, audioUrl: Option<string>, createdAt: int)

  /** JavaScript truthiness of an optional URL: an absent URL and the empty
      string are both falsy, every other string is truthy. */
  predicate HasAudio(url: Option<string>): (b: bool)
    ensures url == None || url == Some("") ==> !b
    ensures url.Some? && |url.value| > 0 ==> b
  {
    url.Some? && url.value != ""
  }

  /** The characters `String.prototype.trim` strips, restricted to the
      ASCII and Latin-1 ones plus the common Unicode separators. */
  predicate IsWhitespace(c: char): (b: bool)
    ensures c == ' ' || c == '\t' || c == '\n' ==> b
    ensures '!' <= c <= '~' ==> !b
  {
    c == ' ' || c == '\t' || c == '\n' || c == '\r' || c == '\U{000B}' || c == '\U{000C}'
    || c == '\U{00A0}' || c == '\U{2028}' || c == '\U{2029}' || c == '\U{FEFF}'
  }

  /** Drops the leading whitespace of `s`: the result is a suffix of `s`,
      everything dropped is whitespace and the result does not start with
      whitespace. */
  function TrimStart(s: string): (r: string)
    ensures |r| <= |s| && r == s[|s| - |r|..]
    ensures forall k :: 0 <= k < |s| - |r| ==> IsWhitespace(s[k])
    ensures r != [] ==> !IsWhitespace(r[0])
  {
    if s != [] && IsWhitespace(s[0]) then TrimStart(s[1..]) else s
  }

  /** Drops the trailing whitespace of `s`: the result is a prefix of `s`,
      everything dropped is whitespace and the result does not end with
      whitespace. */
  function TrimEnd(s: string): (r: string)
    ensures |r| <= |s| && r == s[..|r|]
    ensures forall k :: |r| <= k < |s| ==> IsWhitespace(s[k])
    ensures r != [] ==> !IsWhitespace(r[|r| - 1])
  {
    if s != [] && IsWhitespace(s[|s| - 1]) then TrimEnd(s[..|s| - 1]) else s
  }

  /** How many whitespace characters `s` starts with. */
  function LeadingWhitespace(s: string): (n: nat)
    ensures n <= |s|
  {
    |s| - |TrimStart(s)|
  }

  /** `word.trim()`: the slice of `word` that starts after its leading
      whitespace and stops before its trailing whitespace; it neither starts
      nor ends with whitespace, and it is empty exactly when `word` is all
      whitespace. */
  function Trim(word: string): (r: string)
    ensures LeadingWhitespace(word) + |r| <= |word|
    ensures r == word[LeadingWhitespace(word)..LeadingWhitespace(word) + |r|]
    ensures forall k :: 0 <= k < LeadingWhitespace(word) ==> IsWhitespace(word[k])
    ensures forall k :: LeadingWhitespace(word) + |r| <= k < |word| ==> IsWhitespace(word[k])
    ensures r != [] ==> !IsWhitespace(r[0]) && !IsWhitespace(r[|r| - 1])
    ensures r == [] <==> forall k :: 0 <= k < |word| ==> IsWhitespace(word[k])
  {
    var front := TrimStart(word);
    var i := |word| - |front|;
    assert forall k :: i <= k < |word| ==> word[k] == front[k - i];
    TrimEnd(front)
  }

  /** `!word.trim()`: the word the creator refuses, exactly one made of
      whitespace only (the empty word included). */
  predicate IsBlank(word: string): (b: bool)
    ensures b <==> forall k :: 0 <= k < |word| ==> IsWhitespace(word[k])
  {
    Trim(word) == []
  }

  /** Trimming twice is trimming once: a card's stored word is already in
      trimmed form. */
  lemma TrimIdempotent(word: string)
    ensures Trim(Trim(word)) == Trim(word)
  {
  }

  /** A string without leading or trailing whitespace is its own trim. */
  lemma NoEdgeWhitespaceTrimsToSelf(s: string)
    requires s != [] && !IsWhitespace(s[0]) && !IsWhitespace(s[|s| - 1])
    ensures Trim(s) == s
  {
  }

  /** The card `handleSubmit` builds: `None` (the "Word required" error)
      when the trimmed word is empty, otherwise a card holding the trimmed
      word, the form's audio reference unchanged, and the given id and time. */
  function NewCard(word: string, audioUrl: Option<string>, id: string, now: int): (r: Option<Card>)
    ensures r.None? <==> forall k :: 0 <= k < |word| ==> IsWhitespace(word[k])
    ensures r.Some? ==> r.value.word == Trim(word) && r.value.word != []
    ensures r.Some? ==> !IsWhitespace(r.value.word[0]) && !IsWhitespace(r.value.word[|r.value.word| - 1])
    ensures r.Some? ==> r.value.audioUrl == audioUrl && r.value.id == id && r.value.createdAt == now
  {
    if IsBlank(word) then None else Some(Card(id, Trim(word), audioUrl, now))
  }
}
