# QR render pipeline, modelled in Dafny

A model of the live QR code page in `app.js`. On every edit, `renderQr`
does four things:

1. It trims the message.
2. It normalises the pixel scale and the margin: `parseInt(..) || default`, then `clamp`.
3. It looks the error-correction code up in `eclMap`, falling back to LOW.
4. It calls the external encoder and ends in one of three outcomes:
   - **Idle**: the message is empty. The canvas is cleared, the metadata shows placeholders and the status shows a prompt.
   - **Rendered**: the encoder returned a symbol. `drawCanvas` rasterises it, `setMeta` shows its version, size and mask, and the status reports success.
   - **EncodeFailed**: the encoder threw. The canvas is cleared, the metadata is reset and the status shows the encoder's message verbatim.

Modules, following the pieces of the script:

| module | file | what it holds |
|---|---|---|
| `Wrappers` | wrappers.dfy | `Option` (a parsed number or NaN) and `Result` (a symbol or an encoder error) |
| `Text` | text.dfy | JavaScript `trim` and the decimal text of a number written to `textContent` |
| `Normalize` | normalize.dfy | `clamp`, the `|| default` quirk, scale and margin normalisation, `eclMap` |
| `Symbol` | symbol.dfy | the encoder's symbol record and the `Encoder` function type |
| `Canvas` | canvas.dfy | the canvas as a pixel grid (`Transparent`, `White`, `Dark`), `clearRect`, `clearCanvas`, `fillRect` |
| `Draw` | draw.dfy | `drawCanvas` as an imperative fill of a 2D array, its pixel characterisation `Depicts`, and lemmas on rasters |
| `Meta` | meta.dfy | `setMeta` / `resetMeta` field texts and reading them back |
| `Render` | render.dfy | `renderQr` and its three outcomes |

The encoder `qrcodegen.QrCode.encodeText` is a parameter of type
`(string, Ecc) -> Result<QrCode, string>`. `QrCode` is the encoder's
symbol record `{size, version, mask, modules}`, restricted to square
module grids. `parseInt` is abstracted as `Option<int>`, with `None` for NaN.

The model reproduces one quirk of the code. `parseInt(..) || d`
treats a parsed `0` as falsy, just like NaN. So a typed margin of `0` gives 4
and a typed scale of `0` gives 8. A zero margin comes only from input that
`parseInt` reads as a negative integer, which clamps to 0. A typed `-0.5`
reads as `-0`, which is falsy, and gives 4.

The metadata shows only version, size and mask. The option text of the
selected error-correction level goes into the success status line.

## Model

| member | source | states |
|---|---|---|
| Normalize.Clamp | app.js:81 | with `lo <= hi` the result lies in `[lo, hi]`; a value already in range is returned unchanged; a value below `lo` gives `lo`, above `hi` gives `hi` |
| Normalize.ClampIdempotent | app.js:81 | clamping twice gives the same as clamping once |
| Normalize.NormalizeScale | app.js:22 | the scale is always in `[2, 20]`; NaN and `0` give the default 8; a non-zero value below 2 gives 2, above 20 gives 20, in range stays as typed |
| Normalize.DefaultScaleIff | app.js:22 | the scale is 8 exactly when the input is NaN, `0` or `8` |
| Normalize.NormalizeMargin | app.js:23 | the margin is always in `[0, 10]`; NaN and `0` give the default 4; a negative value gives 0, above 10 gives 10, a value in `1..10` stays as typed |
| Normalize.ZeroMarginOnlyFromNegative | app.js:23 | the margin is 0 exactly when `parseInt` yields a negative integer |
| Normalize.EccFromCode | app.js:32 | `M`, `Q`, `H` map to MEDIUM, QUARTILE, HIGH, each in both directions; every other code, `L` included, maps to LOW |
| Normalize.CodeOf | app.js:13-18 | every level has a code in `eclMap` that looks up back to that level |
| Text.Trim | app.js:21 | the trimmed message is an infix of the input; everything removed at either end is ECMAScript whitespace; the result neither starts nor ends with whitespace |
| Text.TrimEmptyIff | app.js:25 | the message counts as empty exactly when every character of the input is whitespace |
| Text.TrimIdempotent | app.js:21 | trimming an already trimmed message changes nothing |
| Text.NatToDecimal | app.js:65 | a number written to a field becomes a non-empty digit string with no leading zero that denotes the number |
| Meta.SizeTextRoundTrip | app.js:66 | the size field `"n × n"` reads back as `n` |
| Meta.ResetMeta | app.js:70-74 | every field shows the en dash placeholder, which reads as no number in any field |
| Meta.PlaceholderNeverShown | app.js:70-74 | the reset fields differ from the fields of every symbol, so the placeholder is a sentinel no render can produce |
| Normalize.OrDefault | app.js:22-23 | `parseInt(..) || d`: NaN and a parsed `0` both give the fallback `d`; any other parsed value is kept; so the result is never `0` unless `d` is |
| Meta.SetMeta | app.js:64-68 | version and mask are spelt as JavaScript prints them (digits, no leading zero) and denote the symbol's version and mask; the size field is `d × d` with `d` the canonical spelling of the size; each field reads back as its number |
| Meta.MetaSpellingUnique | app.js:64-68 | any fields meeting those spelling clauses are exactly the fields `setMeta` writes |
| Text.CanonicalUnique | app.js:65 | two canonical decimal spellings of the same number are the same string |
| Canvas.ClearCanvas | app.js:76-79 | clearing keeps the canvas's previous width and height and makes every pixel transparent |
| Canvas.FillRect | app.js:58 | pixels inside the rectangle take the fill colour and every other pixel keeps its colour; a negative width or height spans back from the origin, as the canvas API normalises it, and the rectangle is clipped to the array |
| Draw.DrawCanvas | app.js:46-62 | the result is square with side `(size + 2*margin)*scale`; pixel `(px, py)` is dark exactly when module `(px/scale - margin, py/scale - margin)` lies inside the symbol and is set, and white otherwise |
| Draw.BorderIsWhite | app.js:51-52 | every pixel in the margin border of a drawn symbol is white |
| Draw.BlockIsExact | app.js:55-60 | each module covers an exact `scale x scale` block at `((margin+x)*scale, (margin+y)*scale)` inside the raster, in the module's colour |
| Draw.RecoverModules | app.js:55-60 | the module pattern read back from a drawn raster is the symbol's own pattern |
| Draw.PatternIndependentOfGeometry | app.js:46-62 | two drawings of one symbol at any scales and margins carry the same module pattern |
| Draw.DepictionUnique | app.js:48-52 | the drawn raster depends only on symbol, scale and margin, so nothing of the previous raster shows through |
| Render.RenderQr | app.js:20-44 | Idle exactly when the message trims to empty: the prior canvas size is kept, every pixel is cleared, all fields are `–` and the status is the prompt. Otherwise the trimmed text is encoded at the mapped level. On success the canvas depicts the symbol at the normalised scale and margin, the fields are exactly those `setMeta` writes for the symbol, and the status names the selected level. On failure the canvas is cleared at its prior size, the fields are reset, and the status is `Unable to generate QR code: ` followed by the encoder's message |

## Left out

- DOM element lookup, the event listeners and the submit handler (app.js:2-11, app.js:83-95) are wiring. The model covers one call of `renderQr`; repeated events are repeated calls.
- The QR encoding algorithm (`qrcodegen`) is a foreign library whose source is not part of this model. It is the `encode` parameter. The model constrains its symbols only to a square grid, not to qrcodegen's version and mask ranges. The model also ignores its possible boost of the error-correction level.
- Text.Trim: a message is a sequence of Unicode scalar values, not of UTF-16 code units as `textInput.value` is. A message holding a lone surrogate cannot be represented. On well-formed text `trim` behaves the same, since every whitespace character lies in the Basic Multilingual Plane.
- JavaScript `parseInt` string parsing is abstracted to `Option<int>`. `"-0"`, which parses to a falsy `-0`, is covered as `Some(0)`.
- The canvas 2D API is reduced to three colours on a pixel grid. Fill styles, anti-aliasing and the browser's maximum canvas size are not modelled.
- The intermediate writes inside one `renderQr` call are not modelled. Only the state after the call is, since the call runs to completion before anything is shown.
- Normalize.EccFromCode: inherited object keys are not modelled. `eclMap`'s own keys are `L`, `M`, `Q` and `H` (app.js:13-18). `eclMap["toString"]` and other prototype properties are not `undefined` in JavaScript, so for such a code `??` would not fall back to LOW. The model assumes `eclSelect.value` is never an inherited property name.
- Render.RenderQr: the option text for the success status is taken as given. If no option were selected, `selectedOptions[0].textContent` would throw inside the `try`, and the catch branch would clear the freshly drawn canvas. That path is not modelled.
