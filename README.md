# QR code generator: URL validation, QR options and theme state in Dafny

This project models the core of a small browser application. The user types a URL and gets back a QR code that points at it. Four parts of the application are modelled:

- **The URL validator** (`src/utils/urlValidator.ts`). `isValidUrl` works in stages:
  1. Reject a blank or bare-protocol input.
  2. Test the trimmed input against `urlPattern`.
  3. Test the host segment against `domainPattern`.
  4. Parse the input with `new URL`.
  5. Check the parsed hostname and protocol.

  `formatUrl` puts `https://` in front of an input that has no lower-case protocol. Both are pure functions here. Each regular expression has two models:
  - a declarative language (`IsHost`, `InUrlPattern`, `InDomainPattern`);
  - a deterministic recogniser (`MatchesHost`, `MatchesUrlPattern`, `MatchesDomainPattern`), which is what `RegExp.prototype.test` returns.

  Lemmas prove that each recogniser accepts exactly its language.
- **The QR-code utility** (`src/utils/qrCodeGenerator.ts`). Caller options are merged over the defaults with object spread. The model separates a key that is *missing* from a key that is *present with the value `undefined`*, because spread treats them differently. Any failure of the rendering library becomes one error with one message.
- **The generator component** (`src/components/QRGenerator.tsx`). This is a class with the two `useState` fields `url` and `qrCode`, plus methods for the generate action, the input handler and the key handler. Every method keeps the invariant that `qrCode` is empty or is the image URL of an input the validator accepts.
- **The theme provider** (`src/contexts/ThemeContext.tsx`). The initial theme is chosen in this order:
  1. a saved value;
  2. the system's colour-scheme preference;
  3. the configured default.

  The provider is a class whose `storage` field stands for `localStorage`. After mounting and after every toggle, the stored theme equals the current theme.

Some functions of the source are not modelled but taken as parameters:
- the WHATWG URL parser behind `new URL` (`UrlParser`, with `None` where the constructor throws);
- `encodeURIComponent` (`UriComponentEncoder`);
- the `qrcode` library's `toDataURL` and `toCanvas` (`DataUrlRenderer`, `CanvasRenderer`).

Lemmas hold whatever these functions do, with four exceptions:
- `UrlExamples.AcceptsSimpleUrl`, `UrlExamples.AcceptsGoogleCom` and `UrlExamples.AcceptsHttpsExampleCom` hold only for a parser that returns the stated parse;
- `QrCodeGenerator.GeneratorsAgree` holds only for two libraries that fail on the same inputs.

The system's dark-mode preference and the stored `localStorage` map are inputs.

Module layout:

| module | contents |
|---|---|
| `Wrappers` | Option, Result and Outcome |
| `Constants` | the protocols and validation messages of `src/constants/index.ts` |
| `JsString` | `trim`, `startsWith` and `split` as JavaScript defines them |
| `UrlPattern` | the two regular expressions and the proofs that each recogniser matches its language |
| `UrlValidator` | `isValidUrl` and `formatUrl`, and their properties |
| `UrlExamples` | the documented examples, and inputs that show each part of the pattern at work |
| `QrCodeGenerator` | the option merge and the error mapping |
| `QrGeneratorComponent` | the component |
| `ThemeContext` | the selection rule and the provider |

Two facts about the code:

- `a.b` and `a.c/x` are rejected, because `urlPattern` requires a top-level label of two letters or more. `UrlExamples.RejectsOneLetterTld` proves this for `a.b`.
- The utility throws `Failed to generate QR code`. This is not the text of `VALIDATION_MESSAGES.QR_GENERATION_FAILED` in `src/constants/index.ts:30`, which adds ` Please try again.`. The model uses the thrown string.

The `domainPattern` test at `src/utils/urlValidator.ts:53-56` can never reject an input on its own. `UrlValidator.DomainStageRedundant` proves that whenever `urlPattern` matches, the segment `domainPattern` is given is the host the pattern matched, and so `domainPattern` matches it too.

## Model

| member | source | states |
|---|---|---|
| JsString.Trim | src/utils/urlValidator.ts:42 | `String.prototype.trim`: the result is empty exactly when every character is whitespace, and otherwise neither starts nor ends with whitespace; `JsString.TrimIsSlice` gives its contents |
| JsString.TrimIsSlice | src/utils/urlValidator.ts:42 | the trim is one slice of the input, and every character outside that slice is whitespace |
| JsString.TrimIdempotent | src/utils/urlValidator.ts:42 | trimming a trimmed string changes nothing |
| JsString.Split | src/utils/urlValidator.ts:54 | `String.prototype.split` with one character: at least one part, no part contains the separator, and joining the parts with the separator gives back the input |
| JsString.SplitFirst | src/utils/urlValidator.ts:54 | the first part of a split is the text before the first separator |
| JsString.SplitLast | src/utils/urlValidator.ts:74-75 | the last part of a split is the text after the last separator |
| UrlPattern.StripProtocol | src/utils/urlValidator.ts:45 | `replace(/^https?:\/\//, '')` removes exactly a leading lower-case `https://` or `http://` prefix and leaves a suffix of the input |
| UrlPattern.MatchesUrlPattern | src/utils/urlValidator.ts:40-48 | `urlPattern.test(trimmedUrl)`; `UrlPattern.MatchesUrlPatternIsUrlPattern` proves it accepts exactly the pattern's language |
| UrlPattern.MatchesDomainPattern | src/utils/urlValidator.ts:53-54 | `domainPattern.test`; `UrlPattern.MatchesDomainPatternIsDomainPattern` proves it accepts exactly the strings with a host as a prefix |
| UrlPattern.MatchesHostIsHost | src/utils/urlValidator.ts:40 | the host recogniser accepts exactly the strings of `([a-zA-Z0-9-]+\.)+[a-zA-Z]{2,}` |
| UrlPattern.MatchesUrlPatternIsUrlPattern | src/utils/urlValidator.ts:40-50 | `urlPattern.test` holds exactly when the string splits into an optional lower-case protocol, a host, an optional `:` with 1 to 5 digits, and an optional `/`-led tail with no line terminator |
| UrlPattern.MatchesDomainPatternIsDomainPattern | src/utils/urlValidator.ts:53-54 | `domainPattern.test`, which is anchored only at the start, holds exactly when some prefix of the string is a host |
| UrlPattern.HostIsNotProtocol | src/utils/urlValidator.ts:40-45 | a string that begins with a host does not begin with `http://` or `https://`, so the pattern's optional protocol and the removed prefix are the same |
| UrlValidator.IsValidUrl | src/utils/urlValidator.ts:28-84 | `isValidUrl`, with a parser failure giving `false`; `UrlValidator.IsValidUrlCharacterization` states what it accepts |
| UrlValidator.HostSegment | src/utils/urlValidator.ts:45-54 | the segment `domainPattern` is tested on; `UrlValidator.HostSegmentIsHost` proves it is the matched host |
| UrlValidator.UrlToTest | src/utils/urlValidator.ts:60-64 | the string handed to `new URL`; `UrlValidator.ParserSeesFormatUrl` proves it equals `formatUrl` of the input |
| UrlValidator.IsAcceptableParse | src/utils/urlValidator.ts:68-80 | the checks on the parsed URL; `UrlValidator.AcceptableParseHostname` states what they imply about the hostname and protocol |
| UrlValidator.FormatUrl | src/utils/urlValidator.ts:96-107 | the result starts with `http://` or `https://` and ends with `url.trim()`; it is the trimmed input when that already has a protocol, and `https://` followed by the trimmed input otherwise |
| UrlValidator.FormatUrlIdempotent | src/utils/urlValidator.ts:96-107 | `formatUrl(formatUrl(x)) == formatUrl(x)` |
| UrlValidator.FormatUrlTrimmed | src/utils/urlValidator.ts:96-107 | what `formatUrl` returns has nothing left to trim |
| UrlValidator.ParserSeesFormatUrl | src/utils/urlValidator.ts:60-64 | the string handed to `new URL` is `formatUrl` of the same input |
| UrlValidator.RejectsBlankOrBareProtocol | src/utils/urlValidator.ts:29-36 | an empty, whitespace-only, `https://` or `http://` input is rejected, for every parser |
| UrlValidator.RejectedByPattern | src/utils/urlValidator.ts:42-50 | an input whose trim `urlPattern` does not match is rejected, for every parser |
| UrlValidator.HostSegmentIsHost | src/utils/urlValidator.ts:45-54 | when `urlPattern` matches, the protocol-less input split at the first `/` and then at the first `:` is exactly the host the pattern matched |
| UrlValidator.DomainStageRedundant | src/utils/urlValidator.ts:40-56 | whenever `urlPattern` matches, `domainPattern` matches the host segment as well |
| UrlValidator.IsValidUrlCharacterization | src/utils/urlValidator.ts:28-84 | `isValidUrl` holds exactly when the trimmed input is non-blank, is not a bare protocol and is in the pattern's language, and the parser accepts `formatUrl` of it with a dotted hostname, a last label of two or more characters and the `http:` or `https:` protocol |
| UrlValidator.ValidUrlParse | src/utils/urlValidator.ts:59-83 | an accepted input is one the parser reads without error, with a hostname and protocol that pass the checks |
| UrlValidator.AcceptableParseHostname | src/utils/urlValidator.ts:68-80 | the checks on the parsed URL imply the protocol is `http:` or `https:` and the hostname has a dot followed by at least two characters containing no further dot |
| UrlExamples.RejectsInvalid | src/utils/urlValidator.ts:26 | `isValidUrl('invalid')` is false, for every parser |
| UrlExamples.RejectsDigitInTld | src/utils/urlValidator.ts:40 | `a.x1` is rejected: the top-level label must be letters only |
| UrlExamples.RejectsOneLetterTld | src/utils/urlValidator.ts:40 | `a.b` is rejected: the top-level label needs two letters or more |
| UrlExamples.RejectsUpperCaseProtocol | src/utils/urlValidator.ts:40 | `HTTPS://a.com` is rejected: the protocol is matched in lower case only |
| UrlExamples.RejectsLongPort | src/utils/urlValidator.ts:40 | `a.com:123456` is rejected: a port has at most five digits |
| UrlExamples.PatternAcceptsSimpleUrl | src/utils/urlValidator.ts:40 | an optional protocol, one label, a dot and a top-level label match the pattern and are not a bare protocol |
| UrlExamples.FormatSimpleUrl | src/utils/urlValidator.ts:96-107 | on such an input, `formatUrl` keeps a protocol that is there and otherwise puts `https://` in front |
| UrlExamples.AcceptsSimpleUrl | src/utils/urlValidator.ts:28-84 | such an input is accepted whenever the parser reads it with that hostname and the `http:` or `https:` protocol |
| UrlExamples.AcceptsGoogleCom | src/utils/urlValidator.ts:24 | `isValidUrl('google.com')` is true, given the parse of `https://google.com` |
| UrlExamples.AcceptsHttpsExampleCom | src/utils/urlValidator.ts:25 | `isValidUrl('https://example.com')` is true, given the parse of that URL |
| UrlExamples.FormatGoogleCom | src/utils/urlValidator.ts:93 | `formatUrl('google.com')` is `https://google.com` |
| UrlExamples.FormatHttpsExampleCom | src/utils/urlValidator.ts:94 | `formatUrl('https://example.com')` is unchanged |
| QrCodeGenerator.Spread | src/utils/qrCodeGenerator.ts:53 | one key of the spread; `QrCodeGenerator.MergePresenceOverrides` proves the present key wins and an absent key keeps its default |
| QrCodeGenerator.MergeOptions | src/utils/qrCodeGenerator.ts:45-54 | with no options the merge is the defaults, and after any merge every key is present |
| QrCodeGenerator.MergeWithoutOptions | src/utils/qrCodeGenerator.ts:45-54 | with no options or an empty object, the library gets width 300, margin 2, dark `#000000`, light `#FFFFFF` and level `M` |
| QrCodeGenerator.MergePresenceOverrides | src/utils/qrCodeGenerator.ts:53 | every key present in the options replaces the default, even when it is `undefined`, and every absent key keeps its default |
| QrCodeGenerator.MergeIsShallow | src/utils/qrCodeGenerator.ts:48-53 | a caller's `color` object replaces the default pair whole, so a colour it leaves out stays missing |
| QrCodeGenerator.MergeIdempotent | src/utils/qrCodeGenerator.ts:45-54 | merging merged options again changes nothing |
| QrCodeGenerator.ContactScriptOptions | src/scripts/generateContactQR.ts:27-30 | `{ width: 120, margin: 1 }` merges to width 120 and margin 1 with the default colours and level `M` |
| QrCodeGenerator.GenerateQrCode | src/utils/qrCodeGenerator.ts:40-63 | succeeds exactly when the library does, returns the library's data URL unchanged, and otherwise fails with `Failed to generate QR code` |
| QrCodeGenerator.GenerateQrCodeToCanvas | src/utils/qrCodeGenerator.ts:81-103 | completes exactly when the library does, and otherwise fails with `Failed to generate QR code` |
| QrCodeGenerator.GeneratorsAgree | src/utils/qrCodeGenerator.ts:45-102 | for the same text and options, both generators fail together and with the same message, given libraries that fail together on the same merged options |
| QrGeneratorComponent.QrImageUrl | src/components/QRGenerator.tsx:27-30 | the service prefix followed by the encoded `formatUrl` of the input; `QrGeneratorComponent.GenerateShowsIffValid` proves it is the code shown for a valid input |
| QrGeneratorComponent.GenerateOutcome | src/components/QRGenerator.tsx:9-32 | the code and alert one generate leaves; `QrGeneratorComponent.GenerateShowsIffValid`, `GenerateAlerts` and `GenerateKeepsInvariant` state its properties |
| QrGeneratorComponent.GenerateShowsIffValid | src/components/QRGenerator.tsx:9-32 | after a generate, a QR code is shown exactly when the validator accepts the input, and it is the service prefix followed by the encoded `formatUrl` of the input |
| QrGeneratorComponent.GenerateAlerts | src/components/QRGenerator.tsx:13-24 | an alert is raised exactly when no code is produced: the empty-URL message for blank or bare-protocol input, the format message for other rejected input |
| QrGeneratorComponent.EmptyInputIsInvalid | src/components/QRGenerator.tsx:13 | the component's own first guard only rejects inputs the validator also rejects |
| QrGeneratorComponent.GenerateKeepsInvariant | src/components/QRGenerator.tsx:9-32 | a generate leaves `qrCode` empty or equal to the image URL of an accepted input |
| QrGeneratorComponent.QrGenerator.constructor | src/components/QRGenerator.tsx:6-7 | the initial state is `url == "https://"` and `qrCode == ""`, which satisfies the invariant, and no output is shown |
| QrGeneratorComponent.QrGenerator.GenerateQrCode | src/components/QRGenerator.tsx:9-70 | sets `qrCode` and the alert as the generate outcome says, leaves `url` alone, keeps the invariant, and shows output exactly when the input is valid |
| QrGeneratorComponent.QrGenerator.SetValues | src/components/QRGenerator.tsx:34-43 | whitespace-only input clears both fields; any other input is stored untrimmed and `qrCode` is unchanged; the invariant is kept |
| QrGeneratorComponent.QrGenerator.HandleKeyPress | src/components/QRGenerator.tsx:45-49 | Enter performs exactly a generate; any other key changes nothing |
| ThemeContext.GetItem | src/contexts/ThemeContext.tsx:37 | `localStorage.getItem`, `null` when the key is missing; `ThemeContext.ThemeProvider.constructor` reads the initial theme through it |
| ThemeContext.InitialTheme | src/contexts/ThemeContext.tsx:35-52 | the chosen theme is never empty, and without a saved value it is `light` or `dark` |
| ThemeContext.SavedThemeWins | src/contexts/ThemeContext.tsx:37-40 | a non-empty saved value is returned as it is, whatever the system prefers |
| ThemeContext.UnsavedThemeFollowsSystem | src/contexts/ThemeContext.tsx:43-51 | with nothing saved, the theme is `dark` exactly when the system preference is respected and dark is preferred, and otherwise it is the default |
| ThemeContext.PreferenceIgnoredWhenNotRespected | src/contexts/ThemeContext.tsx:43 | when the system preference is not respected, the dark preference never changes the result |
| ThemeContext.ShippedConfiguration | src/config/theme.ts:25-36 | with the shipped configuration and nothing saved, the theme is `dark` exactly when dark is preferred, and `light` otherwise |
| ThemeContext.Toggled | src/contexts/ThemeContext.tsx:79 | the toggle always yields `light` or `dark`, and never the theme it started from |
| ThemeContext.ToggleTwice | src/contexts/ThemeContext.tsx:78-80 | toggling twice is the identity on `light` and `dark` |
| ThemeContext.ToggleNonLight | src/contexts/ThemeContext.tsx:79 | every value other than `light` toggles to `light` |
| ThemeContext.ThemeProvider.constructor | src/contexts/ThemeContext.tsx:64-71 | mounting picks the initial theme from the stored value and the system preference, and stores it under `theme` |
| ThemeContext.ThemeProvider.PersistTheme | src/contexts/ThemeContext.tsx:66-71 | the effect writes the current theme under the key `theme` and leaves every other key alone |
| ThemeContext.ThemeProvider.ToggleTheme | src/contexts/ThemeContext.tsx:78-80 | the theme changes to its toggle, so the effect runs and the stored theme is again the current one |

## Left out

- QR symbol construction happens inside the `qrcode` library and is not modelled. `toDataURL` and `toCanvas` are function parameters.
- The internals of the WHATWG URL parser behind `new URL` and of `encodeURIComponent` are not modelled. Both are function parameters, and lemmas that need a particular parse take it as a precondition.
- `downloadQRCode` is not modelled: it only creates a DOM link and clicks it.
- `alert`, the rendered markup and the `<img>` element are not modelled. The alert text is returned by the generate method instead.
- The asynchronous `Promise` structure and `console.error` are not modelled. The generators are synchronous functions returning Result or Outcome.
- The contact-card script's file writes, base64 decoding, parallel generation and process exit are not modelled. Only the options it passes are modelled.
- `window.matchMedia`, reading and writing `localStorage`, and the `data-theme` attribute on the document are not modelled. The preference and the stored map are inputs, and the map is a field.
- The React wiring of `useTheme`, `App`, `main`, `Header` and `Footer` is not modelled.
- Characters are Dafny characters, not UTF-16 code units. Whitespace is the set JavaScript's `trim` removes. No case folding happens anywhere, which matches the case-sensitive protocol tests.
- Two consequences of UTF-16 are not captured. `encodeURIComponent` throws a `URIError` on a lone surrogate, so in the source such input ends a generate with no code and no alert; the model's encoder always returns a string. `tld.length` counts UTF-16 code units, while the model counts characters.
- Width and margin in the QR options are integers, not JavaScript numbers, and the library's own validation of them is not modelled.
- ThemeContext.ThemeProvider.ToggleTheme: React's batching and re-render scheduling is not modelled. The effect is taken to run once after each change of `theme`, as its dependency list says.
