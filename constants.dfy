/** The string literals shared by the validator and the generator component. */
module Constants {

  /** `URL_PROTOCOLS.HTTPS` */
  const HTTPS: string := "https://"
  /** `URL_PROTOCOLS.HTTP` */
  const HTTP: string := "http://"

  /** `VALIDATION_MESSAGES.EMPTY_URL` */
  const EMPTY_URL_MESSAGE: string := "Please enter a URL"
  /** `VALIDATION_MESSAGES.INVALID_URL_FORMAT` */
  const INVALID_URL_FORMAT_MESSAGE: string :=
    "Please enter a valid URL format (e.g., https://example.com or example.com)"
}
