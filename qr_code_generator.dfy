/**
 * The QR-code utility: caller options are merged over fixed defaults with
 * object spread, the rendering library is called with the merged options,
 * and any library failure becomes one error with one fixed message.
 * The library itself (`QRCode.toDataURL`, `QRCode.toCanvas`) is a parameter.
 */
module QrCodeGenerator {
  import opened Wrappers

  /** `'L' | 'M' | 'Q' | 'H'` */
  datatype ErrorCorrectionLevel = L | M | Q | H

  /**
   * An optional property of an object literal. Spread copies every key the
   * source object HAS, so a key present with the value `undefined` differs
   * from a key that is missing.
   */
  datatype Prop<T> = Absent | Undefined | Defined(value: T)

  /** `color?: { dark?: string, light?: string }` */
  datatype ColorOptions = ColorOptions(dark: Prop<string>, light: Prop<string>)

  /** `IQRCodeOptions`; width and margin are JavaScript numbers, taken here as integers. */
  datatype QrOptions = QrOptions(
    width: Prop<int>,
    margin: Prop<int>,
    color: Prop<ColorOptions>,
    errorCorrectionLevel: Prop<ErrorCorrectionLevel>)

  /** The object literal both generators start from. */
  const DEFAULT_OPTIONS: QrOptions := QrOptions(
    Defined(300),
    Defined(2),
    Defined(ColorOptions(Defined("#000000"), Defined("#FFFFFF"))),
    Defined(M))

  /** The options object with no keys: `{}`. */
  const NO_OPTIONS: QrOptions := QrOptions(Absent, Absent, Absent, Absent)

  /** The message of the error both generators throw. */
  const GENERATION_FAILED: string := "Failed to generate QR code"

  /** One key of `{ ...defaults, ...options }`: the caller's entry wins whenever the key is present. */
  function Spread<T>(default: Prop<T>, given: Prop<T>): Prop<T> {
    if given.Absent? then default else given
  }

  /** `{ width: 300, margin: 2, color: {...}, errorCorrectionLevel: 'M', ...options }` */
  function MergeOptions(options: Option<QrOptions>): (merged: QrOptions)
    ensures options.None? ==> merged == DEFAULT_OPTIONS
    ensures !merged.width.Absent? && !merged.margin.Absent?
    ensures !merged.color.Absent? && !merged.errorCorrectionLevel.Absent?
  {
    match options
    case None => DEFAULT_OPTIONS
    case Some(o) =>
      QrOptions(
        Spread(DEFAULT_OPTIONS.width, o.width),
        Spread(DEFAULT_OPTIONS.margin, o.margin),
        Spread(DEFAULT_OPTIONS.color, o.color),
        Spread(DEFAULT_OPTIONS.errorCorrectionLevel, o.errorCorrectionLevel))
  }

  /** `QRCode.toDataURL(text, options)`: a data URL, or the error it rejects with. */
  type DataUrlRenderer = (string, QrOptions) -> Result<string, string>

  /** `QRCode.toCanvas(canvas, text, options)`: completes, or rejects with an error. */
  type CanvasRenderer<-C> = (C, string, QrOptions) -> Outcome<string>

  /** `generateQRCode(text, options)` */
  function GenerateQrCode(text: string, options: Option<QrOptions>, toDataUrl: DataUrlRenderer): (r: Result<string, string>)
    ensures r.Success? <==> toDataUrl(text, MergeOptions(options)).Success?
    ensures r.Success? ==> r.value == toDataUrl(text, MergeOptions(options)).value
    ensures r.Failure? ==> r.error == GENERATION_FAILED
  {
    var defaultOptions := MergeOptions(options);
    match toDataUrl(text, defaultOptions)
    case Success(qrCodeDataUrl) => Success(qrCodeDataUrl)
    case Failure(_) => Failure(GENERATION_FAILED)
  }

  /** `generateQRCodeToCanvas(text, canvas, options)` */
  function GenerateQrCodeToCanvas<C>(text: string, canvas: C, options: Option<QrOptions>, toCanvas: CanvasRenderer<C>): (r: Outcome<string>)
    ensures r.Pass? <==> toCanvas(canvas, text, MergeOptions(options)).Pass?
    ensures r.Fail? ==> r.error == GENERATION_FAILED
  {
    var defaultOptions := MergeOptions(options);
    match toCanvas(canvas, text, defaultOptions)
    case Pass => Pass
    case Fail(_) => Fail(GENERATION_FAILED)
  }

  // ---------------------------------------------------------------------
  // Properties of the merge
  // ---------------------------------------------------------------------

  /** With no options, or an empty options object, the library gets exactly the defaults. */
  lemma MergeWithoutOptions()
    ensures MergeOptions(None) == DEFAULT_OPTIONS
    ensures MergeOptions(Some(NO_OPTIONS)) == DEFAULT_OPTIONS
    ensures DEFAULT_OPTIONS.width == Defined(300) && DEFAULT_OPTIONS.margin == Defined(2)
    ensures DEFAULT_OPTIONS.color == Defined(ColorOptions(Defined("#000000"), Defined("#FFFFFF")))
    ensures DEFAULT_OPTIONS.errorCorrectionLevel == Defined(M)
  {
  }

  /**
   * Every key present in the options replaces the default, even when its
   * value is `undefined`; every absent key keeps its default.
   */
  lemma MergePresenceOverrides(o: QrOptions)
    ensures var merged := MergeOptions(Some(o));
      && (if o.width.Absent? then merged.width == DEFAULT_OPTIONS.width else merged.width == o.width)
      && (if o.margin.Absent? then merged.margin == DEFAULT_OPTIONS.margin else merged.margin == o.margin)
      && (if o.color.Absent? then merged.color == DEFAULT_OPTIONS.color else merged.color == o.color)
      && (if o.errorCorrectionLevel.Absent? then merged.errorCorrectionLevel == DEFAULT_OPTIONS.errorCorrectionLevel
          else merged.errorCorrectionLevel == o.errorCorrectionLevel)
  {
  }

  /**
   * The merge is shallow: a caller's `color` object replaces the default pair
   * whole, so a colour it leaves out is missing afterwards, not defaulted.
   */
  lemma MergeIsShallow(o: QrOptions, c: ColorOptions)
    requires o.color == Defined(c)
    ensures MergeOptions(Some(o)).color == Defined(c)
    ensures c.light.Absent? ==> MergeOptions(Some(o)).color.value.light.Absent?
    ensures c.dark.Absent? ==> MergeOptions(Some(o)).color.value.dark.Absent?
  {
  }

  /** Merging the merged options again changes nothing: every key is present after one merge. */
  lemma MergeIdempotent(options: Option<QrOptions>)
    ensures MergeOptions(Some(MergeOptions(options))) == MergeOptions(options)
  {
  }

  /** The options the contact-card script passes, `{ width: 120, margin: 1 }`, merged. */
  lemma ContactScriptOptions()
    ensures MergeOptions(Some(QrOptions(Defined(120), Defined(1), Absent, Absent)))
      == QrOptions(Defined(120), Defined(1), DEFAULT_OPTIONS.color, Defined(M))
  {
  }

  /**
   * For the same text and options both generators hand their library the same
   * merged options, and both report a library failure with the same message.
   */
  lemma GeneratorsAgree<C>(text: string, options: Option<QrOptions>, canvas: C,
                           toDataUrl: DataUrlRenderer, toCanvas: CanvasRenderer<C>)
    requires forall t, o :: toDataUrl(t, o).Failure? <==> toCanvas(canvas, t, o).Fail?
    ensures GenerateQrCode(text, options, toDataUrl).Failure? <==> GenerateQrCodeToCanvas(text, canvas, options, toCanvas).Fail?
    ensures GenerateQrCode(text, options, toDataUrl).Failure? ==>
      GenerateQrCode(text, options, toDataUrl).error == GenerateQrCodeToCanvas(text, canvas, options, toCanvas).error
  {
  }
}
