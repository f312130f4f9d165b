# Upload-and-generate widget, modelled in Dafny

This project models `script.js`, the controller behind a single web page.
The user picks or drops one image, types a design prompt and optionally a
filename, and presses "Generate". The page then posts a JSON request to a
webhook and shows the image URL the webhook answers with.

The model has five modules:

- `Wrappers`: `Option`.
- `Decimal`: JavaScript's `String(n)` for non-negative integers and
  `padStart(2, '0')`, together with `DecimalValue`, the digit reader each
  rendering is proved against.
- `Text`: `trim()` over the ECMAScript white-space and line-terminator
  characters, `startsWith`, `endsWith`, and `split` with a one-character
  separator, with `Join` as its inverse.
- `Submission`: the pure pieces of a submission:
  - the `yyyyMMdd-HHmmss` timestamp token (`generateTimestamp`) and the
    parser it round-trips through;
  - the `in_<ts>.jpg` and `out_<ts>.jpg` filenames;
  - the base64 payload cut out of a data URL by `split(',')[1]`;
  - the `||` chain that picks the image URL from the webhook reply;
  - the request record.
- `Controller`: a class with the page state the handlers change:
  - `uploadedFile`, the selected image;
  - `buttonDisabled`, the Generate button's `disabled` flag;
  - `loadingVisible`, whether the loading overlay is shown;
  - `previewSrc`, the preview image's `src`;
  - a ghost log of the visible steps (overlay, button, preview, post,
    alert), kept in order.

  Its methods model:
  - `handleFileSelect` and `handleDrop`: only a first file whose MIME type
    starts with `image/` is accepted;
  - `displayPreviewImage` and `showLoading`;
  - `handleGenerate`: its two guards and its `try`/`catch`/`finally`.

What the browser supplies is passed in as values:

- A file is its declared MIME type plus the data URL that `FileReader`
  yields for it. The data URL is absent when the read fails.
- The clock reading is a `LocalTime` of the `Date` getters' values. The
  month is 0-based, as `getMonth` returns it.
- The text of the prompt and filename fields is passed as strings.
- The webhook's answer is a `WebhookOutcome`: either the call failed, or
  the parsed reply came back.

## Model

| member | source | states |
|---|---|---|
| Decimal.NatToString | script.js:95-100 | `String(n)` is a non-empty run of digits that reads back as `n`, with no leading zero |
| Decimal.NatToStringLength | script.js:95 | a number in [10^(k-1), 10^k) is written with exactly k digits, so the year field is as wide as the year |
| Decimal.PadStart | script.js:96-100 | `padStart` keeps the string as the suffix, fills only the front, and reaches the requested width when shorter |
| Decimal.Pad2 | script.js:96-100 | `String(n).padStart(2, '0')` is the two digits of `n` for n < 100 and reads back as `n`; for wider numbers it is `String(n)` unchanged |
| Text.Trim | script.js:111 | `trim()` gives a string with no white space at either end; it is the slice of the input that starts at the first non-white-space character; everything dropped on both sides is white space |
| Text.TrimEmpty | script.js:111-112 | a field trims to the empty string exactly when it is all white space, which is when the prompt guard fires |
| Text.TrimPadded | script.js:111 | trimming any white-space padding of a trimmed string gives that string back |
| Text.TrimIdempotent | script.js:111 | trimming twice is the same as trimming once |
| Text.StartAt | script.js:111 | the start of the trimmed part is the unique end of the leading white-space run |
| Text.EndAt | script.js:111 | the end of the trimmed part is the unique start of the trailing white-space run |
| Text.IndexOf | script.js:128 | the first occurrence of a character: it is there, and not earlier |
| Text.Split | script.js:128 | `split(sep)` yields at least one piece; no piece contains the separator; the first piece is everything before the first separator, or the whole string |
| Text.SecondPiece | script.js:128 | when the separator occurs, piece `[1]` exists and is exactly the stretch after the first separator, up to the next separator or the end |
| Text.JoinSplit | script.js:128 | joining the pieces of a split gives back the original string |
| Text.SplitJoin | script.js:128 | splitting a join of separator-free pieces gives back the pieces |
| Submission.TimestampShape | script.js:93-102 | with a four-digit year the token has fifteen characters, all digits except a `-` at index 8 |
| Submission.TimestampChars | script.js:95-101 | with a four-digit year the token is the year's four digits, then two digits each for month + 1 and day, a `-`, and two digits each for hours, minutes and seconds |
| Submission.TimestampRoundTrip | script.js:93-102 | reading the token back gives the clock reading it was made from, month included (written as `getMonth() + 1`) |
| Submission.TimestampInjective | script.js:93-102 | two distinct in-range readings never share a token |
| Submission.InputFilename | script.js:124 | `in_${timestamp}.jpg` parses back as the input name of exactly that timestamp and is 7 characters longer |
| Submission.OutputFilename | script.js:125 | `out_${timestamp}.jpg` parses back as the output name of exactly that timestamp and is 8 characters longer |
| Submission.Payload | script.js:128 | `split(',')[1]` is absent exactly when the data URL has no comma; otherwise it is the comma-free segment between the first comma and the next comma or the end |
| Submission.PayloadOfDataUrl | script.js:127-128 | for `data:<mime>;base64,<payload>` with no comma in the MIME type or the payload, the payload is exactly what is extracted |
| Submission.FirstTruthy | script.js:144-148 | an `a \|\| b \|\| ...` chain gives its first truthy operand; when none is truthy the result is falsy, which the model represents as no value |
| Submission.SelectUrl | script.js:144-150 | the URL is `outputImageUrl`, else `imageUrl`, else `ghlImageUrl`, else `url`, whichever is first non-empty; there is none exactly when all four are empty or missing; a chosen URL is never empty |
| Submission.NormalizeFilename | script.js:117 | the filename is `''` when the page has no filename field; otherwise it is the field's value trimmed: a string with no white space at either end that the field's value contains between two runs of white space |
| Submission.BuildRequest | script.js:123-137 | the request carries the payload of the data URL, the prompt and the filename. Both filenames parse back to the request's own timestamp. With a four-digit year that timestamp reads back to the clock reading, and the filenames are 22 and 23 characters long |
| Controller.Controller.constructor | script.js:7 | no file selected, no preview (placeholder shown), overlay hidden, button disabled |
| Controller.Controller.ShowLoading | script.js:206-208 | the overlay's visibility becomes `show`; nothing else changes |
| Controller.Controller.DisplayPreviewImage | script.js:60-65 | the preview shows the given URL and the button is enabled; the file and overlay are unchanged |
| Controller.Controller.HandleFileSelect | script.js:42-57 | a missing or non-image first file changes nothing. An accepted file replaces the selected one. When it can be read, its data URL becomes the preview and the button is enabled. The page invariant is kept |
| Controller.Controller.HandleDrop | script.js:80-90 | the same acceptance rule and outcome as selection, for the first dropped file |
| Controller.Controller.HandleGenerate | script.js:105-164 | The file guard is checked first, then the prompt guard. A failed guard raises only its own alert, sends nothing and changes no state. Otherwise the `try`/`finally` outcome of `Submit` holds on the trimmed prompt and normalized filename |
| Controller.Controller.Submit | script.js:119-163 | The overlay is shown and the button disabled. The request is posted exactly when the file could be read, and it is `BuildRequest`'s. On a usable URL the preview becomes that URL and the success alert is raised. Otherwise only the failure alert is raised and the preview is kept. On every path the overlay is hidden and the button re-enabled, in that order |

## Left out

- The webhook call (script.js:167-193) is not modelled. The `fetch`, the JSON encoding, the `response.ok` check and `response.json()` become the `WebhookOutcome` parameter. The webhook URL in `CONFIG` is not part of this model.
- `FileReader` (script.js:51-57, script.js:196-203) is not modelled. Its result is carried in the `File` value as an optional data URL. The same result is used for the preview read and for the read in `handleGenerate`. The read is asynchronous in the page, but the model applies its result at once.
- The clock is not modelled. `new Date()` becomes the `LocalTime` parameter. Negative years are not modelled: the year is a `nat`. `Timestamp` accepts years of any width, but the fifteen-character and round-trip lemmas assume a four-digit year.
- Concurrency is not modelled. `handleGenerate` runs to completion in one step, so a second click while a request is pending, or a request that never settles, is not covered.
- `console.error` (script.js:158, script.js:190) is not modelled: it only writes to the developer console.
- The error message thrown when no URL is returned (script.js:154) is not modelled; only the alert it leads to is.
- `handleDragOver`, `handleDragLeave` and the `dragover` class (script.js:68-82) are not modelled: they are styling only. `init` and the event wiring (script.js:22-39, script.js:211) are not modelled either.
- `HandleDrop` does not model the `fileInput.files` assignment (script.js:87); the input's file list is not part of the state.
- The placeholder's and preview's `style.display` (script.js:61, 63) are folded into `previewSrc`: a present `src` means the image is shown.
- `FirstTruthy`: when no operand is truthy, a JavaScript `||` chain yields its last operand (`result?.url`: `undefined`, `null` or `''`), not a distinct "no value". The model returns `None` instead. The only use of the result (script.js:150) tests whether it is falsy, so behaviour is the same.
- `SelectUrl` takes the reply's four fields as optional strings only. JSON values that are not strings, such as numbers or objects, are not modelled; a `null` or absent reply is the reply with all four fields missing.
- The page's starting state beyond `uploadedFile = null` (script.js:7) comes from its HTML and CSS, which are not part of this model. That state is the Generate button disabled, the loading overlay hidden and the placeholder shown instead of a preview. `Controller.constructor` takes it as given.
- `Payload`: when the data URL has no comma, `split(',')[1]` is `undefined` and `JSON.stringify` drops the field. The model represents this as an absent `imageBase64`.
- `handleGenerate` shows the loading overlay before it disables the button (script.js:119-120). The model keeps that order.
