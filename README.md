# Multi-style image generation: server action and flow

This project models the decision logic of a small image generation app.

The user submits one text prompt. The server action `handleGenerateImages` does four things in order:

1. It validates the prompt. A prompt that trims to nothing is rejected first. Then a prompt longer than 1000 UTF-16 code units (JavaScript's `length`) is rejected.
2. It runs the image flow, which asks an image model for the same prompt in three styles: "vibrant animated", "3D Pixar" and "hyperrealistic cinematic".
3. It checks that all three image references came back.
4. It turns any error raised in steps 2 and 3 into one of four user-facing messages, by case-sensitive keyword matching on the error text.

The two validation errors are raised before that translation, so "Prompt cannot be empty." and the too-long message reach the caller as they are.

The flow's join is all-or-nothing. A style fails if the model raises an error, or if it answers without an image. Any failing style fails the whole request.

Files:

- `wrappers.dfy`: the `Option` and `Result` datatypes.
- `js_text.dfy`: the JavaScript string operations the code relies on. `length` counts UTF-16 code units, so a character above U+FFFF counts twice. `trim` uses the ECMAScript WhiteSpace and LineTerminator characters. `includes` is plain substring search. The file also proves facts for deciding substring search on fixed texts.
- `image_flow.dfy`: `generateImageForStyle` and `generateImagesFlow`. The image model is a function-valued parameter `ai`, so every property holds for any model behaviour.
- `actions.dfy`: `handleGenerateImages` as a function returning `Result<Output, string>`. A `Failure` carries the message of the error the action throws. The file also proves the end-to-end properties.

## Model

| member | source | states |
|---|---|---|
| JsText.TrimStart | src/app/actions.ts:7 | the result is a suffix of the input, it does not start with whitespace, and everything dropped is whitespace |
| JsText.TrimEnd | src/app/actions.ts:7 | the result is a prefix of the input, it does not end with whitespace, and everything dropped is whitespace |
| JsText.Trim | src/app/actions.ts:7 | `trim()` returns a slice of the prompt that neither starts nor ends with whitespace, with only whitespace dropped before and after it |
| JsText.Utf16Length | src/app/actions.ts:10 | `length` is between the number of characters and twice that, and equals it when no character is above U+FFFF |
| JsText.TrimEmptyIffBlank | src/app/actions.ts:7 | `prompt.trim().length === 0` holds exactly when every character is whitespace |
| JsText.Contains | src/app/actions.ts:28-32 | `includes`: the empty keyword is in every text, every text includes itself, and a keyword longer than the text is never found |
| JsText.SearchIff | src/app/actions.ts:28-32 | the left-to-right scan finds a keyword exactly when it occurs in the text (`includes`) |
| JsText.ContainsSplit | src/app/actions.ts:28-32 | split a text at a character the keyword lacks: the keyword occurs in the text iff it occurs in one of the two parts |
| ImageFlow.StylePrompt | src/ai/flows/generate-image.ts:31 | the model prompt is the base prompt, then ", in a ", then the style phrase, then " style, digital art", and its length is the sum of the parts |
| ImageFlow.StylePromptInjective | src/ai/flows/generate-image.ts:31 | with one base prompt, different styles give different model prompts |
| ImageFlow.StyleRequest | src/ai/flows/generate-image.ts:32-38 | each request names the fixed model id, sends the templated prompt of `StylePrompt` (so the base prompt is its prefix), and asks for text and image modalities |
| ImageFlow.StyleFailureMessage | src/ai/flows/generate-image.ts:40 | the missing-image error message is "Image generation failed for style: " followed by the style phrase |
| ImageFlow.GenerateImageForStyle | src/ai/flows/generate-image.ts:30-43 | a model error passes through unchanged; an answer with no media or an empty url (the falsy test of line 39, `HasImage`) fails with the style's message; it succeeds iff the answer has a usable image, and then returns that url unchanged and non-empty |
| ImageFlow.GenerateImages | src/ai/flows/generate-image.ts:51-59 | succeeds iff all three styles succeed, and then returns the three urls under animated, pixar and cinematic; on failure, the error is one that a failing style raised |
| ImageFlow.GenerateImagesFields | src/ai/flows/generate-image.ts:39-58 | on success, each field is the url the model returned for that style's templated prompt, and no field is empty |
| ImageFlow.StyleRequestsDistinct | src/ai/flows/generate-image.ts:52-56 | the three requests made from one base prompt differ from one another |
| Actions.ValidatePrompt | src/app/actions.ts:7-12 | empty-prompt rejection iff the prompt is blank; too-long rejection iff it is not blank and its untrimmed length in UTF-16 code units is over 1000; acceptance iff neither |
| Actions.TranslateError | src/app/actions.ts:25-35 | the message chosen is always one of the four fixed user-facing strings |
| Actions.BillingWins | src/app/actions.ts:28-29 | a message containing "billing" or "quota" gets the billing message, whatever else it contains |
| Actions.PolicyBeforeTimeout | src/app/actions.ts:30-31 | the policy message is chosen iff there is no billing keyword and there is "moderation" or "safety" |
| Actions.TimeoutLast | src/app/actions.ts:32-33 | the timeout message is chosen iff "timeout" is present and no earlier keyword is |
| Actions.GenericIffNoKeyword | src/app/actions.ts:25-35 | the generic message is chosen iff the error has no message or its message contains none of the five keywords |
| Actions.NoKeywordInEmpty | src/app/actions.ts:26 | an empty message holds no keyword, so skipping it as falsy agrees with the keyword chain |
| Actions.FlowResultIsComplete | src/app/actions.ts:16-18 | every record the flow returns passes the completeness check `IsComplete` (all three fields non-empty, the truthiness test of line 17), so the incomplete-record error is never raised after this flow |
| Actions.HandleGenerateImages | src/app/actions.ts:5-40 | a failure carries one of the two validation messages or one of the four translated ones; a success is a complete record, exactly the one the flow returned |
| Actions.StyleFailureHasNoKeyword | src/ai/flows/generate-image.ts:40 | the missing-image message holds a keyword only if the style phrase does |
| Actions.StylePhrasesHaveNoKeyword | src/ai/flows/generate-image.ts:53-55 | none of the three style phrases contains a keyword |
| Actions.StyleFailureIsGeneric | src/ai/flows/generate-image.ts:40 | the missing-image error of any of the three styles is translated to the generic message |
| Actions.IncompleteHasNoKeyword | src/app/actions.ts:18 | the incomplete-record message contains none of the five keywords |
| Actions.IncompleteIsGeneric | src/app/actions.ts:17-35 | the incomplete-record error is translated to the generic message, so its own text never reaches the caller |
| Actions.ValidationMessagesDistinct | src/app/actions.ts:7-12 | the two validation messages differ from each other and from the four translated messages |
| Actions.HandleRejectsBlank | src/app/actions.ts:7-9 | the action fails with exactly "Prompt cannot be empty." iff the prompt is blank |
| Actions.HandleRejectsTooLong | src/app/actions.ts:10-12 | the action fails with exactly the too-long message iff the prompt is not blank and is over 1000 UTF-16 code units |
| Actions.AcceptedPromptIsTranslated | src/app/actions.ts:14-38 | once the prompt passes validation, any failure carries one of the four translated messages |
| Actions.RejectedPromptSkipsModel | src/app/actions.ts:7-16 | a rejected prompt gives the same outcome for every model, because the flow is never invoked, and the validation message is not rewritten |
| Actions.BlankCheckedBeforeLength | src/app/actions.ts:7-12 | 1001 spaces give the empty-prompt message, not the too-long one |
| Actions.RepeatUtf16Length | src/app/actions.ts:10 | a run of n copies of one character has length n, or 2n for a character above U+FFFF |
| Actions.RepeatValidation | src/app/actions.ts:7-12 | a non-empty run of one non-whitespace character passes validation iff its UTF-16 length is at most 1000 |
| Actions.AstralCharactersCountTwice | src/app/actions.ts:10-12 | 501 emoji characters are 1002 code units, so they get the too-long message |
| Actions.LengthLimitIsInclusive | src/app/actions.ts:10-12 | 1000 non-blank characters pass validation; 1001 are too long |
| Actions.HandleSucceedsIff | src/app/actions.ts:14-21 | for a valid prompt, the action succeeds iff the model gives a usable image for each of the three templated prompts, and the record holds those three urls |
| Actions.HandleFailureIsTranslated | src/app/actions.ts:14-38 | for a valid prompt, a failure carries the translation of the error that one of the three style requests failed with |
| Actions.MissingImageIsGeneric | src/app/actions.ts:22-38 | when the model raises no error but leaves out an image, the caller gets the generic message |

## Left out

- The browser form in src/components/image-generator-form.tsx is not part of this model. It is UI, and its 10 to 2000 character limit is a schema declaration. That limit disagrees with the server's 1000.
- The remote model call is a parameter. Only the model id, the prompt and the requested modalities are recorded in the request; the remote service's behaviour is not modelled.
- `Promise.all` concurrency is not modelled. The three requests are evaluated in the order animated, pixar, cinematic. When several fail, the real join reports whichever rejects first in time, so `GenerateImages` only promises that the error is one of the failing styles' errors.
- Schema checks made by the flow library and the `z.object` schemas are not modelled.
- `console.log` and `console.error` calls are left out, as they only produce output.
- The `typeof input.prompt !== 'string'` test and a missing prompt are left out, because the prompt is typed as a string here. The empty string is covered by the blank check.
- Thrown values are modelled as errors with an optional message. A thrown `null` or `undefined` would make `error.message` itself throw, and that is not modelled. A non-string truthy message is not modelled either.
- A Dafny character is a Unicode scalar value, so a JavaScript string holding a lone surrogate cannot be represented. Surrogate pairs are represented by the one character they encode, and `Utf16Length` counts it as two code units.
- An answer whose media has no url is modelled as an empty url. Both fail the same way in the source.
- The `!result` test on the flow's result is not modelled, because the flow always returns a record or fails. The completeness check itself is modelled.
