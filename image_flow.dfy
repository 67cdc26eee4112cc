/** The multi-style image flow of src/ai/flows/generate-image.ts: one base
    prompt is templated per style, sent to the image model, and the three
    answers are joined all-or-nothing into one record. The remote model is a
    function-valued parameter `ai`, so every property below holds for every
    possible model behaviour. */
module ImageFlow {
  import opened Wrappers

  /** A thrown JavaScript error, seen only through its optional `message`. */
  datatype Error = Error(message: Option<string>)

  /** The response modalities requested from the model. */
  datatype Modality = Text | Image

  /** One `ai.generate` call: model id, prompt text, response modalities. */
  datatype GenerateRequest = GenerateRequest(model: string, prompt: string, modalities: seq<Modality>)

  /** The part of the model's answer the flow reads: `media`, and in it `url`
      (an absent url is modelled as ""). */
  datatype Media = Media(url: string)
  datatype Response = Response(media: Option<Media>)

  /** The remote model: an answer, or an error it raises. */
  type Provider = GenerateRequest -> Result<Response, Error>

  const ModelName: string := "googleai/gemini-2.0-flash-preview-image-generation"

  /** The three style phrases, in the order the flow requests them. */
  const AnimatedStyle: string := "vibrant animated"
  const PixarStyle: string := "3D Pixar"
  const CinematicStyle: string := "hyperrealistic cinematic"

  datatype Input = Input(prompt: string)

  /** The flow's result record, one image reference per style. */
  datatype Output = Output(animated: string, pixar: string, cinematic: string)

  const StyleInfix: string := ", in a "
  const StyleSuffix: string := " style, digital art"

  /** The text sent to the model for one style. The base prompt is its prefix,
      the style phrase can be read back from between the fixed infix and
      suffix, and nothing else is added. */
  function StylePrompt(prompt: string, style: string): (r: string)
    ensures |r| == |prompt| + |style| + 26
    ensures r[..|prompt|] == prompt
    ensures r[|prompt|..|prompt| + 7] == ", in a "
    ensures r[|prompt| + 7..|r| - 19] == style
    ensures r[|r| - 19..] == " style, digital art"
  {
    prompt + StyleInfix + style + StyleSuffix
  }

  /** For one base prompt, different styles give different model prompts, so
      the three requests of the flow are told apart by their text alone. */
  lemma StylePromptInjective(prompt: string, s1: string, s2: string)
    requires StylePrompt(prompt, s1) == StylePrompt(prompt, s2)
    ensures s1 == s2
  {
    var r := StylePrompt(prompt, s1);
    assert |s1| == |s2|;
    assert s1 == r[|prompt| + 7..|r| - 19] == s2;
  }

  /** The request built for one style: the fixed model id, the templated
      prompt, and both text and image modalities. */
  function StyleRequest(prompt: string, style: string): (q: GenerateRequest)
    ensures q.model == ModelName && q.modalities == [Text, Image]
    ensures q.prompt == StylePrompt(prompt, style)
    ensures prompt <= q.prompt
  {
    GenerateRequest(ModelName, StylePrompt(prompt, style), [Text, Image])
  }

  /** The message of the error raised when the model gives no image. */
  function StyleFailureMessage(style: string): (m: string)
    ensures |m| >= |style| && m[|m| - |style|..] == style
    ensures m[..|m| - |style|] == "Image generation failed for style: "
  {
    "Image generation failed for style: " + style
  }

  /** The model's answer carries a usable image reference: media is present
      and its url is a non-empty (truthy) string. */
  predicate HasImage(resp: Response) {
    resp.media.Some? && resp.media.value.url != ""
  }

  /** `generateImageForStyle`: asks the model for one style. An error raised by
      the model passes through unchanged; an answer without media, or with an
      empty url, fails with the style-naming message; otherwise the url is
      returned as it came. */
  function GenerateImageForStyle(ai: Provider, prompt: string, style: string): (r: Result<string, Error>)
    ensures ai(StyleRequest(prompt, style)).Failure? ==> r == Failure(ai(StyleRequest(prompt, style)).error)
    ensures ai(StyleRequest(prompt, style)).Success? && !HasImage(ai(StyleRequest(prompt, style)).value) ==>
              r == Failure(Error(Some(StyleFailureMessage(style))))
    ensures r.Success? <==> ai(StyleRequest(prompt, style)).Success? && HasImage(ai(StyleRequest(prompt, style)).value)
    ensures r.Success? ==> r.value == ai(StyleRequest(prompt, style)).value.media.value.url && r.value != ""
  {
    var resp :- ai(StyleRequest(prompt, style));
    if resp.media.None? || resp.media.value.url == "" then
      Failure(Error(Some(StyleFailureMessage(style))))
    else
      Success(resp.media.value.url)
  }

  /** `generateImagesFlow`: the three styles are requested with the same base
      prompt and joined all-or-nothing (the concurrent join is evaluated in
      the fixed order animated, pixar, cinematic). */
  function GenerateImages(ai: Provider, input: Input): (r: Result<Output, Error>)
    ensures r.Success? <==>
              && GenerateImageForStyle(ai, input.prompt, AnimatedStyle).Success?
              && GenerateImageForStyle(ai, input.prompt, PixarStyle).Success?
              && GenerateImageForStyle(ai, input.prompt, CinematicStyle).Success?
    ensures r.Success? ==> r.value == Output(
              GenerateImageForStyle(ai, input.prompt, AnimatedStyle).value,
              GenerateImageForStyle(ai, input.prompt, PixarStyle).value,
              GenerateImageForStyle(ai, input.prompt, CinematicStyle).value)
    ensures r.Failure? ==>
              || GenerateImageForStyle(ai, input.prompt, AnimatedStyle) == Failure(r.error)
              || GenerateImageForStyle(ai, input.prompt, PixarStyle) == Failure(r.error)
              || GenerateImageForStyle(ai, input.prompt, CinematicStyle) == Failure(r.error)
  {
    var animated :- GenerateImageForStyle(ai, input.prompt, AnimatedStyle);
    var pixar :- GenerateImageForStyle(ai, input.prompt, PixarStyle);
    var cinematic :- GenerateImageForStyle(ai, input.prompt, CinematicStyle);
    Success(Output(animated, pixar, cinematic))
  }

  /** Each field of a successful result is the url the model returned for
      that style's templated prompt, so none is empty. */
  lemma GenerateImagesFields(ai: Provider, input: Input)
    requires GenerateImages(ai, input).Success?
    ensures var out := GenerateImages(ai, input).value;
      && ai(StyleRequest(input.prompt, AnimatedStyle)) == Success(Response(Some(Media(out.animated))))
      && ai(StyleRequest(input.prompt, PixarStyle)) == Success(Response(Some(Media(out.pixar))))
      && ai(StyleRequest(input.prompt, CinematicStyle)) == Success(Response(Some(Media(out.cinematic))))
      && out.animated != "" && out.pixar != "" && out.cinematic != ""
  {
  }

  /** The three requests of one run differ only in the style phrase: same
      model, same modalities, same base prompt as prefix, distinct texts. */
  lemma StyleRequestsDistinct(prompt: string)
    ensures StyleRequest(prompt, AnimatedStyle) != StyleRequest(prompt, PixarStyle)
    ensures StyleRequest(prompt, AnimatedStyle) != StyleRequest(prompt, CinematicStyle)
    ensures StyleRequest(prompt, PixarStyle) != StyleRequest(prompt, CinematicStyle)
  {
    if StylePrompt(prompt, AnimatedStyle) == StylePrompt(prompt, PixarStyle) {
      StylePromptInjective(prompt, AnimatedStyle, PixarStyle);
    }
    if StylePrompt(prompt, AnimatedStyle) == StylePrompt(prompt, CinematicStyle) {
      StylePromptInjective(prompt, AnimatedStyle, CinematicStyle);
    }
    if StylePrompt(prompt, PixarStyle) == StylePrompt(prompt, CinematicStyle) {
      StylePromptInjective(prompt, PixarStyle, CinematicStyle);
    }
  }
}
