# Text-to-shader front end: payload sanitisation and request lifecycle

This project models, in Dafny, the two pieces of logic in the RustWASM browser front end that are not
React or WebGL glue:

- **The shader canvas's sanitisation** (`src/components/ShaderCanvas.js`). A shader payload from the
  generation service is checked and normalised before any graphics call. Both shader sources must be
  non-empty and vertices and indices must be present. The vertex list is rebuilt in whole (x, y, z)
  triples, with 0 for every missing or falsy component. Indices above `vertices.length / 3 - 1` are
  dropped, measured on the padded list. Every `#version <ws> <digits>` match is removed from each shader
  source and the result is trimmed. The draw call uses `gl[drawMode] || gl.TRIANGLES` and
  `indices.length` elements. `ShaderCanvas.Sanitise` is the whole of this as one function: the
  incomplete-data error, or a `DrawCall` (cleaned sources, padded vertices, filtered indices, topology,
  count). `ShaderCanvas.PrepareDraw` is the effect's imperative version. It computes each value in turn,
  in the source's order, and calls the looping `PadVertices`.
- **The text-to-shader panel** (`src/components/TextToShader.js`). The panel has three state cells:
  `isLoading`, `error` and `shaderData`. `fetchShader` moves them from request start to request end
  through try, catch and finally. The "Generate Shader" button is disabled while loading or while the
  description is blank. `TextToShader.ShaderPanel` is a class with those cells as fields. The reply of
  the service is an input (`Reply`): either an error thrown while the reply is awaited and read (by the
  transport, by JSON parsing, or by reading a field of a `null` body), or a parsed reply with an ok
  flag, the shader fields and an optional `error` text. `Settle` says how each reply maps to the final
  cells.

JavaScript values are modelled as follows:
- A vertex component is `Option<real>`. `None` stands for undefined, null and NaN.
- Indices are `int`s. The index bound `vertices.length / 3 - 1` is computed over exact rationals. The
  canvas applies it only to the padded list, whose length is a multiple of 3, so JavaScript's
  floating-point quotient is exact there as well.
- Strings are `seq<char>`, and the whitespace class of `\s` and `trim` is taken as ASCII whitespace.
- The field check uses JavaScript truthiness. A string field must be present and non-empty. An array
  field only has to be present, because even an empty array is truthy.

The panel and the canvas use the same field check (`ShaderCanvas.Complete`). As a result, data the panel
stores never fails the canvas's own field check (`TextToShader.StoredDataPassesFieldCheck`).

`TextToShader.SecondClickIgnored` is a worked case of the button guard: after a first click on a
non-blank description starts a request, a second click while it is in flight starts nothing and the
panel stays loading.

Three behaviours of the code are worth stating outright:
- The index filter has only an upper bound, so negative indices survive
  (`ShaderCanvas.NegativeIndicesSurvive`).
- Every match of `#version\s+\d+` anywhere in the text is removed, not only a leading one, and whatever
  follows the number is kept. For example, the `es` of `#version 300 es` stays
  (`ShaderCanvas.StripLeadingDirective`).
- The field check rejects empty shader source strings as well as missing ones.

## Model

| member | source | states |
|---|---|---|
| `JsString.TrimStart` | src/components/ShaderCanvas.js:64 | the result is the suffix left after the longest all-whitespace prefix, and it does not start with whitespace |
| `JsString.TrimEnd` | src/components/ShaderCanvas.js:64 | the result is the prefix left before the longest all-whitespace suffix, and it does not end with whitespace |
| `JsString.Trim` | src/components/ShaderCanvas.js:64 | `trim` leaves no whitespace at either end and never lengthens the text; with TrimStart, TrimEnd and TrimOfPadded this makes the result the unique whitespace-free-ended middle of the input |
| `JsString.TrimStartOfPadded` | src/components/ShaderCanvas.js:64 | TrimStart removes exactly a whitespace prefix that stands in front of non-whitespace |
| `JsString.TrimEndOfPadded` | src/components/ShaderCanvas.js:64 | TrimEnd removes exactly a whitespace suffix that follows non-whitespace |
| `JsString.TrimOfPadded` | src/components/ShaderCanvas.js:64 | trimming whitespace-padded text whose ends are not whitespace gives back exactly that text, so the trim result is unique |
| `JsString.TrimEmptyIff` | src/components/TextToShader.js:64 | `s.trim()` is empty exactly when `s` is all whitespace, in both directions |
| `JsString.TrimIdempotent` | src/components/ShaderCanvas.js:64 | trimming twice equals trimming once |
| `ShaderCanvas.Truthy` | src/components/ShaderCanvas.js:36 | definition: a string field is truthy when present and non-empty |
| `ShaderCanvas.Complete` | src/components/ShaderCanvas.js:36-38 | definition: the mandatory-field check, both sources truthy and both arrays present (empty arrays pass); the same check as src/components/TextToShader.js:26 |
| `ShaderCanvas.ComponentOrZero` | src/components/ShaderCanvas.js:28 | definition: `vertices[k] \|\| 0`, the component when present, else 0, also past the end |
| `ShaderCanvas.Padded` | src/components/ShaderCanvas.js:27-28 | reference definition of the padded list, 3·⌈n/3⌉ entries of `ComponentOrZero`; its shape is proved in PaddedShape |
| `ShaderCanvas.PadVertices` | src/components/ShaderCanvas.js:24-31 | the loop stepping by 3 builds exactly the padded list `Padded(vertices)` |
| `ShaderCanvas.PaddedShape` | src/components/ShaderCanvas.js:27-28 | the padded length is a multiple of 3 and is the least one at or above n, i.e. 3·⌈n/3⌉; present components are kept; absent or falsy components and all trailing positions are 0 |
| `ShaderCanvas.PaddedIdempotent` | src/components/ShaderCanvas.js:26-30 | padding an already padded list returns it unchanged, length included |
| `ShaderCanvas.WithinMaxIndex` | src/components/ShaderCanvas.js:20-21 | definition: the filter condition `index <= length/3 - 1` over exact rationals |
| `ShaderCanvas.WithinMaxIndexIff` | src/components/ShaderCanvas.js:20-21 | the JavaScript bound `index <= length/3 - 1` holds exactly when `3·(index+1) <= length`, and exactly when `index < length div 3` |
| `ShaderCanvas.ValidateIndices` | src/components/ShaderCanvas.js:19-22 | every kept index is within the bound; each index value occurs as often as in the input when within the bound and not at all otherwise; no more elements than the input |
| `ShaderCanvas.ValidateIndicesAppend` | src/components/ShaderCanvas.js:21 | filtering a concatenation is the concatenation of the filtered parts, so the original order is kept |
| `ShaderCanvas.KeptIndicesAddressTriples` | src/components/ShaderCanvas.js:20-21 | every kept index `i` satisfies `3·(i+1) <= length`, so each non-negative kept index addresses a whole (x, y, z) triple; negative indices are kept as well (NegativeIndicesSurvive) |
| `ShaderCanvas.NegativeIndicesSurvive` | src/components/ShaderCanvas.js:20-21 | every negative index is kept, because the filter has only an upper bound |
| `ShaderCanvas.EmptyVerticesKeepOnlyNegative` | src/components/ShaderCanvas.js:20-21 | with an empty vertex list every index from 0 upward is removed |
| `ShaderCanvas.SpaceRun` | src/components/ShaderCanvas.js:64 | the greedy `\s+` run: the longest whitespace prefix |
| `ShaderCanvas.DigitRun` | src/components/ShaderCanvas.js:64 | the greedy `\d+` run: the longest digit prefix |
| `ShaderCanvas.DirectiveLength` | src/components/ShaderCanvas.js:64 | a match of `#version\s+\d+` at the start begins with `#version` and whitespace, ends on a digit, and lies within the text |
| `ShaderCanvas.DirectiveLengthSound` | src/components/ShaderCanvas.js:64 | a reported match is exactly `#version`, a non-empty whitespace block and the longest digit block after it: it ends where the digits end, so e.g. `#version x1` is no match |
| `ShaderCanvas.StripVersion` | src/components/ShaderCanvas.js:64 | the global replace never lengthens the text and never adds a character occurrence (multiset inclusion); order and what is kept are pinned by StripKeepsUnmatched, StripLeadingDirective and StripWithoutDirective |
| `ShaderCanvas.StripKeepsUnmatched` | src/components/ShaderCanvas.js:64 | a stretch of text at which no match starts is copied through unchanged and in order, ahead of what the scan makes of the rest (e.g. a newline before `#version` is kept) |
| `ShaderCanvas.StripWithoutDirective` | src/components/ShaderCanvas.js:64 | text in which no match starts anywhere comes out of the replace unchanged |
| `ShaderCanvas.CleanSource` | src/components/ShaderCanvas.js:64 | the cleaned source has no whitespace at either end and is no longer than the input |
| `ShaderCanvas.CleanWithoutDirective` | src/components/ShaderCanvas.js:64 | a source with no `#version` match is changed only by trimming |
| `ShaderCanvas.CleanWithoutHash` | src/components/ShaderCanvas.js:64 | a source without `#` holds no match, so cleaning only trims it |
| `ShaderCanvas.SpaceRunOf` | src/components/ShaderCanvas.js:64 | the whitespace run of `w + t` is exactly `|w|` when `t` does not start with whitespace |
| `ShaderCanvas.DigitRunOf` | src/components/ShaderCanvas.js:64 | the digit run of `d + t` is exactly `|d|` when `t` does not start with a digit |
| `ShaderCanvas.DirectiveLengthOf` | src/components/ShaderCanvas.js:64 | `#version`, whitespace and a number, followed by a non-digit, form one match that ends exactly where the number ends |
| `ShaderCanvas.StripLeadingDirective` | src/components/ShaderCanvas.js:64 | a leading `#version`, whitespace and number are removed as one match, and the scan resumes on what follows the number, so a trailing `es` is kept |
| `ShaderCanvas.TopologyNamed` | src/components/ShaderCanvas.js:120 | a token resolves to a topology only under that topology's own constant name |
| `ShaderCanvas.TopologyNamedRoundTrip` | src/components/ShaderCanvas.js:120 | every topology is found again under its name |
| `ShaderCanvas.DrawMode` | src/components/ShaderCanvas.js:120 | the chosen topology has a non-zero constant and is either the one the token names or TRIANGLES |
| `ShaderCanvas.DrawModeFallback` | src/components/ShaderCanvas.js:120 | every named topology is used except POINTS (constant 0), which falls back to TRIANGLES, as do an unknown token and an absent one |
| `ShaderCanvas.Sanitise` | src/components/ShaderCanvas.js:34-44 | it fails exactly when a shader source is missing or empty, or vertices or indices are missing (empty arrays pass), and then with "Shader data is incomplete."; on success the vertex count is a multiple of 3, every kept index `i` satisfies `3·(i+1) <=` the padded length, so each non-negative one addresses a whole triple of the padded list (negative ones are kept too), the count equals the number of filtered indices, the sources are trimmed, and the topology constant is non-zero; and the result is tied to the input: vertices = `Padded` of the raw list, indices = `ValidateIndices` of the raw indices against them, sources = `CleanSource` of the raw sources, mode = `DrawMode` of the raw name |
| `ShaderCanvas.SanitisedIndicesFromRaw` | src/components/ShaderCanvas.js:41-44 | in terms of the raw input length n: an index survives exactly when `3·(x+1) <= 3·⌈n/3⌉`, as often as it occurs in the input, and the filtered list splits along any split of the input, so order is kept |
| `ShaderCanvas.PrepareDraw` | src/components/ShaderCanvas.js:34-120 | the step-by-step preparation (pad, then filter against the padded list, then clean, then choose the mode and count) produces exactly `Sanitise` |
| `ShaderCanvas.TwoVerticesPadded` | src/components/ShaderCanvas.js:27-28 | the list [0,0,0,1,0,0] pads to itself |
| `ShaderCanvas.TwoVerticesFilter` | src/components/ShaderCanvas.js:20-21 | against six components, index 5 of [0,1,5] is dropped |
| `ShaderCanvas.TwoVertexPayload` | src/components/ShaderCanvas.js:41-44 | vertices [0,0,0,1,0,0] stay as they are, and of indices [0,1,5] index 5 is dropped, so 2 elements are drawn |
| `ShaderCanvas.FilterAfterPadding` | src/components/ShaderCanvas.js:41-44 | indices are filtered against the padded count: with 4 raw components index 1 survives, although the raw count would drop it |
| `TextToShader.Attempt` | src/components/TextToShader.js:24-33 | the try block yields the reply's data exactly when the reply is ok and all four mandatory fields are present, and otherwise throws |
| `TextToShader.Settle` | src/components/TextToShader.js:24-35 | shader data is set, to the reply's data, exactly for an ok reply with all four fields; exactly one of shader data and error is set; an error message is never empty |
| `TextToShader.SettleMessages` | src/components/TextToShader.js:26-35 | an incomplete ok reply gives "Incomplete shader data received from the backend."; a non-ok reply gives its non-empty `error` text or "Failed to generate shader."; a thrown error gives its non-empty message or "An unexpected error occurred." |
| `TextToShader.ServiceErrorShown` | src/components/TextToShader.js:31-32 | a failing reply with error "rate limited" shows "rate limited" and no shader |
| `TextToShader.StoredDataPassesFieldCheck` | src/components/TextToShader.js:26-27 | stored shader data always passes the canvas's mandatory-field check |
| `TextToShader.ButtonDisabled` | src/components/TextToShader.js:64 | the button is disabled exactly when loading or when the description is all whitespace |
| `TextToShader.ShaderPanel.constructor` | src/components/TextToShader.js:5-8 | the panel starts with an empty description, no shader data, no error and not loading |
| `TextToShader.ShaderPanel.SetDescription` | src/components/TextToShader.js:49 | editing the text changes only the description and keeps the panel invariant |
| `TextToShader.ShaderPanel.Start` | src/components/TextToShader.js:11-13 | starting a request sets loading and clears error and shader data |
| `TextToShader.ShaderPanel.Finish` | src/components/TextToShader.js:15-38 | on success only shader data is set, and on failure only error is set, both to the settled values; loading is off in every case; the stored-data invariant holds |
| `TextToShader.ShaderPanel.FetchShader` | src/components/TextToShader.js:10-39 | a whole request ends with loading off and the cells equal to `Settle(reply)`, whatever the outcome |
| `TextToShader.ShaderPanel.Click` | src/components/TextToShader.js:62-64 | a click starts a request exactly when the button is enabled, a click on a disabled button changes nothing, and the panel invariant is kept |
| `TextToShader.ShaderPanel.ReportRenderError` | src/components/ShaderCanvas.js:121-124 | a render failure sets the panel's error to the failure's message, leaves the other cells alone and keeps the panel invariant |

## Left out

- All WebGL calls are left out. This covers getting the context and its "WebGL is not supported in this
  browser." error, shader compilation and program linking with their failure messages, buffer creation,
  the `position` attribute set-up, viewport, clear, depth test and the draw itself. Their outcomes depend
  on the graphics driver, which is not modelled; the errors they raise (no context, a failed compile
  status, a failed link status) reach the panel only through `ReportRenderError`. A missing `position`
  attribute raises no error: it only logs a warning and the draw goes ahead.
  `DrawCall` stops at what would be handed to them.
- The `Float32Array` and `Uint16Array` conversions are left out. They involve float rounding and 16-bit
  wrap-around of indices (negative indices or indices above 65535).
- `ShaderCanvas.TopologyNamed` covers only the seven topology constants. A drawMode token naming some
  other property of the rendering context (another enum or a method) is treated as unknown, and the
  model falls back to TRIANGLES. The real context would pass that value to the draw call.
- `ShaderCanvas.SpaceRun` and `ShaderCanvas.DigitRun` use ASCII whitespace and ASCII digits. The
  Unicode whitespace that JavaScript's `\s` and `trim` also accept is not modelled.
- `ShaderCanvas.StripVersion` is not claimed to leave no `#version` text behind. Removing one match can
  join its neighbours into new `#version` text, and a single global replace does not rescan it.
- Payload fields of the wrong JavaScript type are not modelled. Examples are a numeric shader source,
  non-integer indices, or a non-array `vertices` or `indices`. A vertex component is a real or absent,
  and a `-0` component is not distinguished from 0.
- The panel stores only the shader fields of the reply body. Any other fields of the JavaScript object,
  such as `error`, are kept in the source but ignored by the canvas.
- `fetch`, the request URL from the environment, the JSON encoding of the request and the JSON parsing
  of the reply are left out. Every failure they can raise is the `Threw` reply.
- A reply whose JSON body is `null` makes the source throw a TypeError when it reads `data.vertexShaderCode`
  or `data.error`. The model has no `null` body; that case is covered only as a `Threw` reply with the
  TypeError's message.
- React scheduling and rendering are left out. Between `Start` and `Finish` other handlers may run; the
  model represents that by the separate methods.
- `src/components/RustCalculator.js` is not part of this model. It is a thin wrapper around a WASM
  module whose behaviour is not visible here.
- `rust_calculator/src/lib.rs` is not part of this model. It is a one-line call into an external
  expression evaluator that returns floating-point numbers.
- `src/App.js` is not part of this model. It holds only tab-switching UI state.
- Console logging is left out.
