/**
 * `renderQr`: one pass of the pipeline, run on every input and change
 * event. It ends in one of three outcomes, each of which fully decides
 * the canvas, the metadata fields and the status line.
 */
module Render {

  import opened Wrappers
  import opened Text
  import opened Normalize
  import opened Symbol
  import opened Canvas
  import opened Draw
  import opened Meta

  /**
   * The form as `renderQr` reads it. `scale` and `margin` are the results
   * of `parseInt(.., 10)`, `None` for NaN; `eccLabel` is the text of the
   * selected error-correction option.
   */
  datatype Form = Form(text: string, eccCode: string, eccLabel: string,
                       scale: Option<int>, margin: Option<int>)

  /** Everything a render writes: canvas, status line and metadata fields. */
  datatype Page = Page(canvas: Raster, status: string, meta: MetaFields)

  datatype Outcome =
    | Idle                      // the message trims to nothing
    | Rendered(code: QrCode)    // the encoder produced `code`
    | EncodeFailed(reason: string) // the encoder threw with message `reason`

  const Prompt: string := "Enter text to generate a QR code."
  const FailurePrefix: string := "Unable to generate QR code: "

  function SuccessStatus(optionText: string): string
  {
    "QR code generated with " + optionText + "."
  }

  /** The page shows no symbol: cleared canvas of the previous size, placeholders. */
  predicate ShowsNothing(prev: Page, next: Page)
  {
    && next.canvas.width == prev.canvas.width
    && next.canvas.height == prev.canvas.height
    && Uniform(next.canvas, Transparent)
    && next.meta.version == Placeholder
    && next.meta.size == Placeholder
    && next.meta.mask == Placeholder
  }

  /**
   * `renderQr()` starting from page `prev`, with the form contents `form`
   * and `encode` standing for `qrcodegen.QrCode.encodeText`.
   */
  method RenderQr(prev: Page, form: Form, encode: Encoder) returns (outcome: Outcome, next: Page)
    // an empty message: idle, whatever the prior state, with no encoder result involved
    ensures outcome == Idle <==> Trim(form.text) == []
    ensures outcome == Idle ==> ShowsNothing(prev, next) && next.status == Prompt
    // otherwise the trimmed text is encoded at the selected level
    ensures outcome.Rendered? <==>
      Trim(form.text) != [] && encode(Trim(form.text), EccFromCode(form.eccCode)).Success?
    ensures outcome.Rendered? ==>
      && outcome.code == encode(Trim(form.text), EccFromCode(form.eccCode)).value
      && Depicts(next.canvas, outcome.code, NormalizeScale(form.scale), NormalizeMargin(form.margin))
      && next.meta == SetMeta(outcome.code)
      && ParseDecimal(next.meta.version) == Some(outcome.code.version)
      && ParseSizeText(next.meta.size) == Some(outcome.code.size)
      && ParseDecimal(next.meta.mask) == Some(outcome.code.mask)
      && next.status == SuccessStatus(form.eccLabel)
    ensures outcome.EncodeFailed? <==>
      Trim(form.text) != [] && encode(Trim(form.text), EccFromCode(form.eccCode)).Failure?
    ensures outcome.EncodeFailed? ==>
      && outcome.reason == encode(Trim(form.text), EccFromCode(form.eccCode)).error
      && ShowsNothing(prev, next)
      && next.status == FailurePrefix + outcome.reason
  {
    var message := Trim(form.text);
    var scale := NormalizeScale(form.scale);
    var margin := NormalizeMargin(form.margin);
    if message == [] {
      return Idle, Page(ClearCanvas(prev.canvas), Prompt, ResetMeta());
    }
    var ecc := EccFromCode(form.eccCode);
    match encode(message, ecc)
    case Success(q) =>
      var c := DrawCanvas(q, scale, margin);
      outcome, next := Rendered(q), Page(c, SuccessStatus(form.eccLabel), SetMeta(q));
    case Failure(reason) =>
      outcome, next := EncodeFailed(reason), Page(ClearCanvas(prev.canvas), FailurePrefix + reason, ResetMeta());
  }
}
