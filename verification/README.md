# FlipFlop engine: response shaping, in Dafny

The FlipFlop engine fuses two nouns into one descriptive paragraph. A
language model writes the paragraph. The engine then holds it to a length
contract of 450 to 500 characters and may forward it to an image backend.
This project models the deterministic logic of `main.py` around those two
backend calls:

- the user turn `A: <noun1>\nB: <noun2>` sent to the model;
- the checks on the model's reply: there must be a choice, and its content, stripped, must not be empty;
- the length contract `_enforce_length`;
- the image prompt `_maybe_build_image_prompt`;
- the `/flipflop` handler that composes them.

Strings are `seq<char>`, one element per Python code point. Python's
`str.strip()` is modelled exactly: it removes the code points that
`str.isspace()` accepts. The two backends are function parameters. The
language model maps the user turn to either a completion or a raised
exception. A completion is the list of each choice's message content. The
image backend maps the prompt to either an optional URL or a raised
exception. Every `HTTPException(502, …)` of the source is an `Err` value
carrying the same status and detail text.

Files:

- `wrappers.dfy`: `Option`, `Outcome`, `HttpError` and `Backend` (returned or raised).
- `py_str.dfy`: module `PyStr`, whitespace, `strip()` and its characterisation.
- `flipflop.dfy`: module `FlipFlop`, the model of `main.py`.

Three behaviours of the code worth noting, all modelled as written:

- With `enforce_length` false the code never truncates, even above 500 characters.
- An exception from the image backend fails the whole request with a 502. It is not isolated.
- With `request_image` true and no image backend configured, `image_prompt` is still built and returned; only `image_url` stays null.

## Model

| member | source | states |
|---|---|---|
| `PyStr.IsSpace` | main.py:176 | the whitespace test `strip()` uses: space, tab, line feed and carriage return are whitespace, ASCII letters and digits are not, and no code point above U+3000 is |
| `PyStr.LeadingSpaces` | main.py:176 | the leading whitespace run that `strip()` removes: all whitespace, and followed by a non-whitespace code point or the end |
| `PyStr.TrailingSpaces` | main.py:176 | the trailing whitespace run that `strip()` removes: all whitespace, and preceded by a non-whitespace code point or the start |
| `PyStr.Strip` | main.py:176 | `strip()` returns a contiguous slice of its input with no whitespace at either end; only whitespace lies outside the slice; the result is empty exactly when the input is all whitespace |
| `PyStr.StripCharacterised` | main.py:176 | whenever a string is whitespace + a trimmed middle + whitespace, `strip()` returns that middle, so the result is uniquely determined |
| `PyStr.StripIdempotent` | main.py:176 | stripping an already stripped string changes nothing |
| `PyStr.StripOfPaddedTrimmed` | main.py:176 | corollary of `StripCharacterised`: the same whitespace padded on both sides of a trimmed string is exactly what `strip()` removes |
| `FlipFlop.LlmCallError` | main.py:169-170 | an exception from the model call becomes a 502 whose detail ends with the exception text and differs from every reply-check and length-check error |
| `FlipFlop.ImageBackendError` | main.py:214-215 | an exception from the image backend becomes a 502 whose detail ends with the exception text and differs from every text-generation error |
| `FlipFlop.ValidRequest` | main.py:113-118 | the request field bounds (nouns 1..500 code points, tail at most 200); under them the user turn of the stripped nouns is at most 1007 characters |
| `FlipFlop.UserMessage` | main.py:161 | the user turn is `A: `, the first noun, a line break, `B: `, and the second noun, at those exact offsets |
| `FlipFlop.ParseUserMessage` | main.py:161 | any pair read back from a user turn rebuilds that exact turn, and its first noun has no line break |
| `FlipFlop.UserMessageRoundTrip` | main.py:161 | the user turn `A: n1\nB: n2` determines both nouns whenever the first holds no line break |
| `FlipFlop.UserMessageAmbiguous` | main.py:161 | without the line-break condition the user turn does not determine the nouns: `("x\nB: y", "z")` and `("x", "y\nB: z")` give the same turn |
| `FlipFlop.ContentOrEmpty` | main.py:175 | `content or ""` is empty exactly when the content is None or empty, and is the content otherwise |
| `FlipFlop.ExtractReply` | main.py:172-179 | no choices gives "LLM returned no choices."; first content (null read as "") all whitespace gives "LLM returned empty content."; otherwise the reply is the stripped first content, non-empty and trimmed |
| `FlipFlop.CallFlipFlopLlm` | main.py:156-179 | the model is asked with the two-line user turn; an exception it raises becomes a 502 "LLM call failed: …"; otherwise the reply checks decide; every error is a 502, and every reply is non-empty and trimmed |
| `FlipFlop.EnforceLength` | main.py:182-195 | fails exactly when enforced and under 450 characters, with the 502 "shorter than 450" error; on success the text is a prefix of the input, `truncated` holds exactly when enforced and over 500 characters, a truncated text has length 500, an untruncated one is the input, and an enforced one is 450..500 long (both bounds accepted) |
| `FlipFlop.EnforceLengthIdempotent` | main.py:182-195 | a paragraph the contract let through passes it again unchanged and untruncated |
| `FlipFlop.Truthy` | main.py:199 | `if tail:` holds exactly when `tail or ""` is non-empty, i.e. the tail is present and not empty |
| `FlipFlop.MaybeBuildImagePrompt` | main.py:198-201 | the prompt starts with the paragraph; it equals the paragraph exactly when the tail is None or empty; otherwise one space and the stripped tail follow |
| `FlipFlop.BlankTailAddsSpace` | main.py:198-201 | a non-empty all-whitespace tail is truthy and yields the paragraph plus one space |
| `FlipFlop.HandleFlipFlop` | main.py:222-237 | every error is a 502; a returned paragraph is non-empty; it is 450..500 long when enforced, and trimmed and untruncated when not; a truncated one has length 500; without `request_image` both image fields are None; with it the image prompt is the one built from the returned paragraph and tail |
| `FlipFlop.HandlerReturnsEnforcedReply` | main.py:222-237 | the whole outcome: an error from the model call or the length contract is returned unchanged; otherwise the response holds the enforced paragraph and `truncated`, with no image fields when no image is requested, and otherwise the built prompt and the image backend's URL, or the image error |
| `FlipFlop.ImageBackendUnusedUnlessRequested` | main.py:226-230 | without `request_image` the response does not depend on the image backend at all |
| `FlipFlop.ImageBackendErrorIsFatal` | main.py:210-215 | with `request_image`, an exception from the image backend turns an otherwise successful request into the 502 "Image backend error: …" |
| `FlipFlop.SurroundingWhitespaceOfNounsIgnored` | main.py:223 | requests whose nouns differ only in surrounding whitespace send the same user turn, and so get the same response for the same backend replies |

## Left out

- `_build_llm_client` (main.py:128-153): environment lookup and SDK client construction. Its `RuntimeError`s are not modelled; the model's `llm` parameter stands for the configured client.
- The model name and `temperature=0` passed to `client.chat.completions.create` (main.py:158, 164-168): the call itself is the `llm` parameter, and only what it returns or raises is modelled.
- The system message `FLIPFLOP_SYSTEM_PROMPT` (main.py:17-110) is prompt text. Only the user turn is modelled.
- `_maybe_generate_image` (main.py:204-215) is an HTTP POST plus JSON parsing. It is the `image` parameter. `Returned(None)` stands for both an unconfigured backend and a reply without a URL. Choosing between the `url` and `image_url` keys is not modelled.
- The FastAPI app, the routes, `/healthz` and pydantic serialisation (main.py:113-125, 218-221, 240-242). The request field bounds appear only as the `ValidRequest` precondition of the handler.
- `fastapi_app/main.py` and `flipflop_engine/__init__.py` wrap or re-export `flipflop_engine/core.py`. `flipflop_engine/core.py` is not part of this model.
