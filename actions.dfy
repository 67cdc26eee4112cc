/** The server action of src/app/actions.ts: validate the prompt, run the
    image flow, check the record is complete, and turn any error raised by the
    flow or the completeness check into one of four user-facing messages. The
    validation errors are raised before that translation and reach the caller
    unchanged. The action's outcome is a `Result`: the record it returns, or
    the message of the error it throws. */
module Actions {
  import opened Wrappers
  import opened JsText
  import opened ImageFlow

  const MaxPromptLength: nat := 1000

  const EmptyPromptMessage: string := "Prompt cannot be empty."
  const TooLongMessage: string := "Prompt is too long. Maximum 1000 characters."
  // Split in two only to keep each literal short for the verifier.
  const IncompleteMessage: string := "AI model did not return " + "all three image styles."
  const GenericMessage: string := "Failed to generate images due to an unexpected server error."
  const BillingMessage: string := "Image generation failed due to a billing or quota issue. Please check your account."
  const PolicyMessage: string := "Image generation failed due to content policy. Please try a different prompt."
  const TimeoutMessage: string := "Image generation timed out. Please try again shortly."

  /** The four messages an error raised after validation can turn into. */
  predicate IsTranslatedMessage(m: string) {
    m == BillingMessage || m == PolicyMessage || m == TimeoutMessage || m == GenericMessage
  }

  /** The input checks, run before anything else: a prompt that trims to
      nothing is rejected first, then one whose untrimmed length in UTF-16
      code units is over the limit. Trim-emptiness is the same as every
      character being whitespace. */
  function ValidatePrompt(prompt: string): (r: Option<string>)
    ensures r == Some(EmptyPromptMessage) <==> IsBlank(prompt)
    ensures r == Some(TooLongMessage) <==> !IsBlank(prompt) && Utf16Length(prompt) > MaxPromptLength
    ensures r == None <==> !IsBlank(prompt) && Utf16Length(prompt) <= MaxPromptLength
  {
    TrimEmptyIffBlank(prompt);
    if |Trim(prompt)| == 0 then Some(EmptyPromptMessage)
    else if Utf16Length(prompt) > MaxPromptLength then Some(TooLongMessage)
    else None
  }

  /** The three keyword classes, matched case-sensitively. */
  predicate MentionsBilling(m: string) {
    Contains(m, "billing") || Contains(m, "quota")
  }

  predicate MentionsPolicy(m: string) {
    Contains(m, "moderation") || Contains(m, "safety")
  }

  predicate MentionsTimeout(m: string) {
    Contains(m, "timeout")
  }

  predicate MentionsKeyword(m: string) {
    MentionsBilling(m) || MentionsPolicy(m) || MentionsTimeout(m)
  }

  /** The catch block: the user-facing message chosen for an error. Billing
      or quota is checked first, then moderation or safety, then timeout;
      an error without a message gets the generic text. */
  function TranslateError(e: Error): (m: string)
    ensures IsTranslatedMessage(m)
  {
    if e.message.None? || e.message.value == "" then GenericMessage
    else if MentionsBilling(e.message.value) then BillingMessage
    else if MentionsPolicy(e.message.value) then PolicyMessage
    else if MentionsTimeout(e.message.value) then TimeoutMessage
    else GenericMessage
  }

  /** A billing or quota keyword decides the message whatever else the error
      text mentions. */
  lemma BillingWins(msg: string)
    requires MentionsBilling(msg)
    ensures TranslateError(Error(Some(msg))) == BillingMessage
  {
  }

  /** Moderation or safety wins over timeout, and gives way only to billing. */
  lemma PolicyBeforeTimeout(msg: string)
    ensures TranslateError(Error(Some(msg))) == PolicyMessage <==> !MentionsBilling(msg) && MentionsPolicy(msg)
  {
  }

  /** Timeout is reported only when no earlier keyword is present. */
  lemma TimeoutLast(msg: string)
    ensures TranslateError(Error(Some(msg))) == TimeoutMessage <==>
              !MentionsBilling(msg) && !MentionsPolicy(msg) && MentionsTimeout(msg)
  {
  }

  /** The generic message is given exactly when there is no message or it
      holds none of the keywords. */
  lemma GenericIffNoKeyword(e: Error)
    ensures TranslateError(e) == GenericMessage <==> e.message.None? || !MentionsKeyword(e.message.value)
  {
    if e.message.Some? && e.message.value == "" {
      NoKeywordInEmpty();
    }
  }

  lemma NoKeywordInEmpty()
    ensures !MentionsKeyword("")
  {
    SearchIff("", "billing");
    SearchIff("", "quota");
    SearchIff("", "moderation");
    SearchIff("", "safety");
    SearchIff("", "timeout");
  }

  /** A record is complete when all three fields are truthy, that is
      non-empty, strings. */
  predicate IsComplete(out: Output) {
    out.animated != "" && out.pixar != "" && out.cinematic != ""
  }

  /** Every record the flow returns passes the completeness check, so that
      check can never raise its error after this flow. */
  lemma FlowResultIsComplete(ai: Provider, input: Input)
    requires GenerateImages(ai, input).Success?
    ensures IsComplete(GenerateImages(ai, input).value)
  {
    GenerateImagesFields(ai, input);
  }

  /** `handleGenerateImages`. Validation failures are thrown before the
      `try`, so their messages reach the caller as they are; everything after
      them is translated. */
  function HandleGenerateImages(ai: Provider, input: Input): (r: Result<Output, string>)
    ensures r.Failure? ==> r.error == EmptyPromptMessage || r.error == TooLongMessage || IsTranslatedMessage(r.error)
    ensures r.Success? ==> IsComplete(r.value) && GenerateImages(ai, input) == Success(r.value)
  {
    match ValidatePrompt(input.prompt)
    case Some(message) => Failure(message)
    case None =>
      match GenerateImages(ai, input)
      case Failure(e) => Failure(TranslateError(e))
      case Success(out) =>
        if !IsComplete(out) then Failure(TranslateError(Error(Some(IncompleteMessage))))
        else Success(out)
  }

  /** A character that occurs in none of the keywords; no keyword can span it. */
  predicate Separates(c: char) {
    c !in "billing" && c !in "quota" && c !in "moderation" && c !in "safety" && c !in "timeout"
  }

  /** A word of a fixed message holds no keyword, decided by searching it. */
  lemma WordHasNoKeyword(w: string)
    requires !SearchFrom(w, "billing", 0) && !SearchFrom(w, "quota", 0)
    requires !SearchFrom(w, "moderation", 0) && !SearchFrom(w, "safety", 0) && !SearchFrom(w, "timeout", 0)
    ensures !MentionsKeyword(w)
  {
    SearchIff(w, "billing");
    SearchIff(w, "quota");
    SearchIff(w, "moderation");
    SearchIff(w, "safety");
    SearchIff(w, "timeout");
  }

  /** Joining keyword-free texts at a separating character gives a
      keyword-free text. */
  lemma JoinHasNoKeyword(w: string, c: char, rest: string)
    requires Separates(c) && !MentionsKeyword(w) && !MentionsKeyword(rest)
    ensures !MentionsKeyword(w + [c] + rest)
  {
    ContainsSplit(w, c, rest, "billing");
    ContainsSplit(w, c, rest, "quota");
    ContainsSplit(w, c, rest, "moderation");
    ContainsSplit(w, c, rest, "safety");
    ContainsSplit(w, c, rest, "timeout");
  }

  /** The words of the "no image" message hold no keyword. Each word is
      searched in a lemma of a few words, to keep every proof small. */
  lemma FailureHeadWords()
    ensures !MentionsKeyword("Image") && !MentionsKeyword("generation")
  {
    WordHasNoKeyword("Image");
    WordHasNoKeyword("generation");
  }

  lemma FailureTailWords()
    ensures !MentionsKeyword("failed") && !MentionsKeyword("for") && !MentionsKeyword("style:")
  {
    WordHasNoKeyword("failed");
    WordHasNoKeyword("for");
    WordHasNoKeyword("style:");
  }

  lemma FailureSentence(style: string)
    requires !MentionsKeyword(style)
    ensures !MentionsKeyword("Image" + [' '] + ("generation" + [' '] + ("failed" + [' '] + ("for" + [' '] + ("style:" + [' '] + style)))))
  {
    FailureHeadWords();
    FailureTailWords();
    var r := style;
    JoinHasNoKeyword("style:", ' ', r);
    r := "style:" + [' '] + r;
    JoinHasNoKeyword("for", ' ', r);
    r := "for" + [' '] + r;
    JoinHasNoKeyword("failed", ' ', r);
    r := "failed" + [' '] + r;
    JoinHasNoKeyword("generation", ' ', r);
    r := "generation" + [' '] + r;
    JoinHasNoKeyword("Image", ' ', r);
  }

  lemma FailureMessageWords(style: string)
    ensures StyleFailureMessage(style) ==
      "Image" + [' '] + ("generation" + [' '] + ("failed" + [' '] + ("for" + [' '] + ("style:" + [' '] + style))))
  {
  }

  /** The per-style failure text adds no keyword to the style phrase. */
  lemma StyleFailureHasNoKeyword(style: string)
    requires !MentionsKeyword(style)
    ensures !MentionsKeyword(StyleFailureMessage(style))
  {
    FailureSentence(style);
    FailureMessageWords(style);
  }

  /** The words of the three style phrases hold no keyword; "hyperrealistic"
      is taken in two pieces around its 'p', a letter no keyword has. */
  lemma AnimatedWords()
    ensures !MentionsKeyword("vibrant") && !MentionsKeyword("animated")
  {
    WordHasNoKeyword("vibrant");
    WordHasNoKeyword("animated");
  }

  lemma PixarWords()
    ensures !MentionsKeyword("3D") && !MentionsKeyword("Pixar")
  {
    WordHasNoKeyword("3D");
    WordHasNoKeyword("Pixar");
  }

  lemma CinematicWords()
    ensures !MentionsKeyword("hy") && !MentionsKeyword("cinematic")
  {
    WordHasNoKeyword("hy");
    WordHasNoKeyword("cinematic");
  }

  lemma RealisticWord()
    ensures !MentionsKeyword("errealistic")
  {
    WordHasNoKeyword("errealistic");
  }

  lemma AnimatedPhrase()
    ensures !MentionsKeyword(AnimatedStyle)
  {
    AnimatedWords();
    JoinHasNoKeyword("vibrant", ' ', "animated");
    assert "vibrant" + [' '] + "animated" == AnimatedStyle;
  }

  lemma PixarPhrase()
    ensures !MentionsKeyword(PixarStyle)
  {
    PixarWords();
    JoinHasNoKeyword("3D", ' ', "Pixar");
    assert "3D" + [' '] + "Pixar" == PixarStyle;
  }

  lemma HyperrealisticWord()
    ensures !MentionsKeyword("hyperrealistic")
  {
    CinematicWords();
    RealisticWord();
    JoinHasNoKeyword("hy", 'p', "errealistic");
    assert "hy" + ['p'] + "errealistic" == "hyperrealistic";
  }

  lemma CinematicPhrase()
    ensures !MentionsKeyword(CinematicStyle)
  {
    CinematicWords();
    HyperrealisticWord();
    JoinHasNoKeyword("hyperrealistic", ' ', "cinematic");
    assert "hyperrealistic" + [' '] + "cinematic" == CinematicStyle;
  }

  /** None of the three style phrases holds a keyword. */
  lemma StylePhrasesHaveNoKeyword()
    ensures !MentionsKeyword(AnimatedStyle) && !MentionsKeyword(PixarStyle) && !MentionsKeyword(CinematicStyle)
  {
    AnimatedPhrase();
    PixarPhrase();
    CinematicPhrase();
  }

  /** The "no image" failure of any of the three styles reaches the caller as
      the generic message, never as its own text. */
  lemma StyleFailureIsGeneric(style: string)
    requires style == AnimatedStyle || style == PixarStyle || style == CinematicStyle
    ensures TranslateError(Error(Some(StyleFailureMessage(style)))) == GenericMessage
  {
    StylePhrasesHaveNoKeyword();
    StyleFailureHasNoKeyword(style);
    GenericIffNoKeyword(Error(Some(StyleFailureMessage(style))));
  }

  /** The words of the internal "incomplete record" message hold no keyword. */
  lemma IncompleteHeadWords()
    ensures !MentionsKeyword("AI") && !MentionsKeyword("model") && !MentionsKeyword("did")
  {
    WordHasNoKeyword("AI");
    WordHasNoKeyword("model");
    WordHasNoKeyword("did");
  }

  lemma IncompleteMiddleWords()
    ensures !MentionsKeyword("not") && !MentionsKeyword("return") && !MentionsKeyword("all")
  {
    WordHasNoKeyword("not");
    WordHasNoKeyword("return");
    WordHasNoKeyword("all");
  }

  lemma IncompleteTailWords()
    ensures !MentionsKeyword("three") && !MentionsKeyword("image") && !MentionsKeyword("styles.")
  {
    WordHasNoKeyword("three");
    WordHasNoKeyword("image");
    WordHasNoKeyword("styles.");
  }

  lemma IncompleteHeadSentence()
    ensures !MentionsKeyword("AI" + [' '] + ("model" + [' '] + ("did" + [' '] + ("not" + [' '] + "return"))))
  {
    IncompleteHeadWords();
    IncompleteMiddleWords();
    var r := "return";
    JoinHasNoKeyword("not", ' ', r);
    r := "not" + [' '] + r;
    JoinHasNoKeyword("did", ' ', r);
    r := "did" + [' '] + r;
    JoinHasNoKeyword("model", ' ', r);
    r := "model" + [' '] + r;
    JoinHasNoKeyword("AI", ' ', r);
  }

  lemma IncompleteTailSentence()
    ensures !MentionsKeyword("all" + [' '] + ("three" + [' '] + ("image" + [' '] + "styles.")))
  {
    IncompleteMiddleWords();
    IncompleteTailWords();
    var r := "styles.";
    JoinHasNoKeyword("image", ' ', r);
    r := "image" + [' '] + r;
    JoinHasNoKeyword("three", ' ', r);
    r := "three" + [' '] + r;
    JoinHasNoKeyword("all", ' ', r);
  }

  lemma IncompleteHeadText()
    ensures "AI" + [' '] + ("model" + [' '] + ("did" + [' '] + ("not" + [' '] + "return"))) == "AI model did not return"
  {
  }

  lemma IncompleteTailText()
    ensures "all" + [' '] + ("three" + [' '] + ("image" + [' '] + "styles.")) == "all three image styles."
  {
  }

  lemma IncompleteText()
    ensures "AI model did not return" + [' '] + "all three image styles." == IncompleteMessage
  {
    assert "AI model did not return" + [' '] == "AI model did not return ";
  }

  lemma IncompleteHasNoKeyword()
    ensures !MentionsKeyword(IncompleteMessage)
  {
    IncompleteHeadSentence();
    IncompleteHeadText();
    IncompleteTailSentence();
    IncompleteTailText();
    JoinHasNoKeyword("AI model did not return", ' ', "all three image styles.");
    IncompleteText();
  }

  /** The internal "incomplete record" error holds no keyword, so the caller
      sees the generic message and never the internal text. */
  lemma IncompleteIsGeneric()
    ensures TranslateError(Error(Some(IncompleteMessage))) == GenericMessage
  {
    IncompleteHasNoKeyword();
    GenericIffNoKeyword(Error(Some(IncompleteMessage)));
  }

  /** The two validation messages differ from each other and from the four
      translated ones, so the caller can tell every outcome apart. */
  lemma ValidationMessagesDistinct()
    ensures EmptyPromptMessage != TooLongMessage
    ensures !IsTranslatedMessage(EmptyPromptMessage) && !IsTranslatedMessage(TooLongMessage)
  {
  }

  /** A prompt that trims to nothing is answered with exactly the empty-prompt
      message, and no other input is. */
  lemma HandleRejectsBlank(ai: Provider, input: Input)
    ensures HandleGenerateImages(ai, input) == Failure(EmptyPromptMessage) <==> IsBlank(input.prompt)
  {
    ValidationMessagesDistinct();
    if ValidatePrompt(input.prompt).None? {
      AcceptedPromptIsTranslated(ai, input);
    }
  }

  /** A non-blank prompt over the limit is answered with exactly the
      too-long message, and no other input is. */
  lemma HandleRejectsTooLong(ai: Provider, input: Input)
    ensures HandleGenerateImages(ai, input) == Failure(TooLongMessage) <==>
              !IsBlank(input.prompt) && Utf16Length(input.prompt) > MaxPromptLength
  {
    ValidationMessagesDistinct();
    if ValidatePrompt(input.prompt).None? {
      AcceptedPromptIsTranslated(ai, input);
    }
  }

  /** Once the prompt passes validation, every failure is translated. */
  lemma AcceptedPromptIsTranslated(ai: Provider, input: Input)
    requires ValidatePrompt(input.prompt).None?
    ensures HandleGenerateImages(ai, input).Failure? ==> IsTranslatedMessage(HandleGenerateImages(ai, input).error)
  {
  }

  /** A rejected prompt never reaches the model: the outcome is the same
      whatever the model would have done. */
  lemma RejectedPromptSkipsModel(ai1: Provider, ai2: Provider, input: Input)
    requires ValidatePrompt(input.prompt).Some?
    ensures HandleGenerateImages(ai1, input) == HandleGenerateImages(ai2, input)
    ensures HandleGenerateImages(ai1, input) == Failure(ValidatePrompt(input.prompt).value)
  {
  }

  /** `n` copies of the character `c`. */
  function Repeat(c: char, n: nat): (r: string)
    ensures |r| == n
    ensures forall i :: 0 <= i < n ==> r[i] == c
  {
    if n == 0 then [] else [c] + Repeat(c, n - 1)
  }

  /** A run of one character is as long in UTF-16 code units as its count,
      or twice that for a character above U+FFFF. */
  lemma {:induction false} RepeatUtf16Length(c: char, n: nat)
    ensures Utf16Length(Repeat(c, n)) == n * (if c <= '\U{FFFF}' then 1 else 2)
  {
    if n > 0 {
      RepeatUtf16Length(c, n - 1);
      assert Repeat(c, n)[1..] == Repeat(c, n - 1);
    }
  }

  /** A run of `n > 0` copies of a non-whitespace character passes
      validation exactly when its UTF-16 length is within the limit. */
  lemma RepeatValidation(c: char, n: nat)
    requires !IsWhitespace(c) && n > 0
    ensures ValidatePrompt(Repeat(c, n)) ==
              if n * (if c <= '\U{FFFF}' then 1 else 2) > MaxPromptLength then Some(TooLongMessage) else None
  {
    RepeatUtf16Length(c, n);
    assert Repeat(c, n)[0] == c;
  }

  /** The limit counts UTF-16 code units, not characters: 501 characters
      above U+FFFF are 1002 units, so they are too long. */
  lemma AstralCharactersCountTwice()
    ensures |Repeat('\U{1F600}', 501)| == 501
    ensures ValidatePrompt(Repeat('\U{1F600}', 501)) == Some(TooLongMessage)
  {
    AstralNotWhitespace('\U{1F600}');
    RepeatValidation('\U{1F600}', 501);
  }

  /** The emptiness check comes first: 1001 spaces are "empty", not "too long". */
  lemma BlankCheckedBeforeLength(ai: Provider)
    ensures HandleGenerateImages(ai, Input(Repeat(' ', MaxPromptLength + 1))) == Failure(EmptyPromptMessage)
  {
    assert IsWhitespace(' ');
  }

  /** The limit is inclusive: 1000 non-blank characters pass validation,
      1001 do not. */
  lemma LengthLimitIsInclusive()
    ensures ValidatePrompt(Repeat('a', MaxPromptLength)) == None
    ensures ValidatePrompt(Repeat('a', MaxPromptLength + 1)) == Some(TooLongMessage)
  {
    assert !IsWhitespace('a');
    RepeatValidation('a', MaxPromptLength);
    RepeatValidation('a', MaxPromptLength + 1);
  }

  /** End to end, for a prompt that passes validation: the action returns a
      record exactly when the model gives a usable image for each of the three
      styled prompts, and the record holds those three urls as they came. */
  lemma HandleSucceedsIff(ai: Provider, input: Input)
    requires ValidatePrompt(input.prompt) == None
    ensures HandleGenerateImages(ai, input).Success? <==>
              && ai(StyleRequest(input.prompt, AnimatedStyle)).Success?
              && HasImage(ai(StyleRequest(input.prompt, AnimatedStyle)).value)
              && ai(StyleRequest(input.prompt, PixarStyle)).Success?
              && HasImage(ai(StyleRequest(input.prompt, PixarStyle)).value)
              && ai(StyleRequest(input.prompt, CinematicStyle)).Success?
              && HasImage(ai(StyleRequest(input.prompt, CinematicStyle)).value)
    ensures HandleGenerateImages(ai, input).Success? ==>
              HandleGenerateImages(ai, input).value == Output(
                ai(StyleRequest(input.prompt, AnimatedStyle)).value.media.value.url,
                ai(StyleRequest(input.prompt, PixarStyle)).value.media.value.url,
                ai(StyleRequest(input.prompt, CinematicStyle)).value.media.value.url)
  {
    if GenerateImages(ai, input).Success? {
      GenerateImagesFields(ai, input);
    }
  }

  /** For a prompt that passes validation, a failed action reports the
      translation of the error one of the three style requests failed with;
      the completeness check never fires after this flow. */
  lemma HandleFailureIsTranslated(ai: Provider, input: Input)
    requires ValidatePrompt(input.prompt) == None
    requires HandleGenerateImages(ai, input).Failure?
    ensures exists style | style == AnimatedStyle || style == PixarStyle || style == CinematicStyle ::
              && GenerateImageForStyle(ai, input.prompt, style).Failure?
              && HandleGenerateImages(ai, input).error == TranslateError(GenerateImageForStyle(ai, input.prompt, style).error)
  {
    var r := GenerateImages(ai, input);
    if r.Success? {
      GenerateImagesFields(ai, input);
      assert false;
    }
    if GenerateImageForStyle(ai, input.prompt, AnimatedStyle) == Failure(r.error) {
      assert GenerateImageForStyle(ai, input.prompt, AnimatedStyle).Failure?;
    } else if GenerateImageForStyle(ai, input.prompt, PixarStyle) == Failure(r.error) {
      assert GenerateImageForStyle(ai, input.prompt, PixarStyle).Failure?;
    } else {
      assert GenerateImageForStyle(ai, input.prompt, CinematicStyle).Failure?;
    }
  }

  /** When the model raises no error but leaves out an image for some style,
      the caller is told only the generic message. */
  lemma MissingImageIsGeneric(ai: Provider, input: Input)
    requires ValidatePrompt(input.prompt) == None
    requires ai(StyleRequest(input.prompt, AnimatedStyle)).Success?
    requires ai(StyleRequest(input.prompt, PixarStyle)).Success?
    requires ai(StyleRequest(input.prompt, CinematicStyle)).Success?
    requires HandleGenerateImages(ai, input).Failure?
    ensures HandleGenerateImages(ai, input).error == GenericMessage
  {
    HandleFailureIsTranslated(ai, input);
    var style :| (style == AnimatedStyle || style == PixarStyle || style == CinematicStyle)
      && GenerateImageForStyle(ai, input.prompt, style).Failure?
      && HandleGenerateImages(ai, input).error == TranslateError(GenerateImageForStyle(ai, input.prompt, style).error);
    StyleFailureIsGeneric(style);
  }
}
