/**
 * The generator component: an input field bound to `url`, a generate action
 * that validates it and sets `qrCode` to the image URL of an external QR-code
 * service, and an output block shown while `qrCode` is non-empty.
 */
module QrGeneratorComponent {
  import opened Wrappers
  import opened JsString
  import opened Constants
  import opened UrlValidator

  /** The service the image URL points at, with the payload parameter last. */
  const QR_API_PREFIX: string := "https://api.qrserver.com/v1/create-qr-code/?size=300x300&data="

  /** The value `encodeURIComponent` is: a function of the string alone. */
  type UriComponentEncoder = string -> string

  /** The image URL generated for an input: the service prefix, then the encoded `formatUrl`. */
  function QrImageUrl(encode: UriComponentEncoder, url: string): string {
    QR_API_PREFIX + encode(FormatUrl(url))
  }

  /** The component's own first guard: nothing but whitespace, or only a protocol. */
  predicate IsEmptyInput(url: string) {
    Trim(url) == "" || Trim(url) == "https://" || Trim(url) == "http://"
  }

  /** What one generate action leaves: the new `qrCode` and the alert shown, if any. */
  datatype Generated = Generated(qrCode: string, alert: Option<string>)

  /** The outcome of the generate action on the current `url`. */
  function GenerateOutcome(url: string, parse: UrlParser, encode: UriComponentEncoder): Generated {
    if IsEmptyInput(url) then Generated("", Some(EMPTY_URL_MESSAGE))
    else if !IsValidUrl(url, parse) then Generated("", Some(INVALID_URL_FORMAT_MESSAGE))
    else Generated(QrImageUrl(encode, url), None)
  }

  /** The invariant on `qrCode`: empty, or the image URL of some input the validator accepts. */
  ghost predicate IsShownQrCode(qrCode: string, parse: UrlParser, encode: UriComponentEncoder) {
    qrCode == "" || exists u :: IsValidUrl(u, parse) && qrCode == QrImageUrl(encode, u)
  }

  // ---------------------------------------------------------------------
  // Properties of the generate action
  // ---------------------------------------------------------------------

  /** After generating, a QR code is shown exactly when the validator accepts the input. */
  lemma GenerateShowsIffValid(url: string, parse: UrlParser, encode: UriComponentEncoder)
    ensures GenerateOutcome(url, parse, encode).qrCode != "" <==> IsValidUrl(url, parse)
    ensures IsValidUrl(url, parse) ==> GenerateOutcome(url, parse, encode).qrCode == QrImageUrl(encode, url)
  {
  }

  /** An alert is raised exactly when no QR code is produced; the two messages split the rejections. */
  lemma GenerateAlerts(url: string, parse: UrlParser, encode: UriComponentEncoder)
    ensures var g := GenerateOutcome(url, parse, encode);
      && (g.alert.Some? <==> g.qrCode == "")
      && (IsEmptyInput(url) ==> g.alert == Some(EMPTY_URL_MESSAGE))
      && (!IsEmptyInput(url) && !IsValidUrl(url, parse) ==> g.alert == Some(INVALID_URL_FORMAT_MESSAGE))
  {
  }

  /** An input whose trim is empty or a bare protocol is rejected by the validator too. */
  lemma EmptyInputIsInvalid(url: string, parse: UrlParser)
    requires IsEmptyInput(url)
    ensures !IsValidUrl(url, parse)
  {
  }

  /** Generating always leaves a `qrCode` that satisfies the invariant. */
  lemma GenerateKeepsInvariant(url: string, parse: UrlParser, encode: UriComponentEncoder)
    ensures IsShownQrCode(GenerateOutcome(url, parse, encode).qrCode, parse, encode)
  {
  }

  /** The component's state: `const [url] = useState('https://')`, `const [qrCode] = useState('')`. */
  class QrGenerator {
    var url: string
    var qrCode: string
    /** The URL parser behind `new URL` and the `encodeURIComponent` global. */
    const parse: UrlParser
    const encode: UriComponentEncoder

    ghost predicate Valid()
      reads this
    {
      IsShownQrCode(qrCode, parse, encode)
    }

    /** The output block (`{qrCode && ...}`) is rendered exactly when `qrCode` is non-empty. */
    predicate ShowsOutput()
      reads this
    {
      qrCode != ""
    }

    constructor(parse: UrlParser, encode: UriComponentEncoder)
      ensures url == HTTPS && qrCode == ""
      ensures this.parse == parse && this.encode == encode
      ensures Valid() && !ShowsOutput()
    {
      this.parse := parse;
      this.encode := encode;
      url := HTTPS;
      qrCode := "";
    }

    /** `generateQRCode`: clear the code, reject with an alert, or set the new image URL. */
    method GenerateQrCode() returns (alert: Option<string>)
      modifies this`qrCode
      ensures Generated(qrCode, alert) == GenerateOutcome(url, parse, encode)
      ensures url == old(url)
      ensures Valid()
      ensures ShowsOutput() <==> IsValidUrl(url, parse)
    {
      qrCode := "";
      if Trim(url) == "" || Trim(url) == "https://" || Trim(url) == "http://" {
        alert := Some(EMPTY_URL_MESSAGE);
        return;
      }
      if !IsValidUrl(url, parse) {
        alert := Some(INVALID_URL_FORMAT_MESSAGE);
        return;
      }
      var formattedUrl := FormatUrl(url);
      qrCode := QR_API_PREFIX + encode(formattedUrl);
      alert := None;
      GenerateShowsIffValid(url, parse, encode);
    }

    /** `setValues`: typing whitespace only clears both fields; otherwise the raw text is kept. */
    method SetValues(updatedUrl: string)
      requires Valid()
      modifies this`url, this`qrCode
      ensures Trim(updatedUrl) == "" ==> url == "" && qrCode == ""
      ensures Trim(updatedUrl) != "" ==> url == updatedUrl && qrCode == old(qrCode)
      ensures Valid()
    {
      if Trim(updatedUrl) == "" {
        qrCode := "";
        url := "";
        return;
      }
      url := updatedUrl;
    }

    /** `handleKeyPress`: Enter generates; any other key changes nothing. */
    method HandleKeyPress(key: string) returns (alert: Option<string>)
      requires Valid()
      modifies this`qrCode
      ensures key == "Enter" ==> Generated(qrCode, alert) == GenerateOutcome(url, parse, encode)
      ensures key != "Enter" ==> qrCode == old(qrCode) && alert == None
      ensures url == old(url)
      ensures Valid()
    {
      alert := None;
      if key == "Enter" {
        alert := GenerateQrCode();
      }
    }
  }
}
