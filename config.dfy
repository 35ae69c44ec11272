/** The constants of the `Config` class of new_test.py. */
module Config {

  /** Base of every document-page image URL. */
  const IMAGE_URL: string := "https://recording.seminoleclerk.org/DuProcessWebInquiry/Home/GetDocumentPage/undefined"

  /** Digit d of a GIN is replaced by ENCODE_KEY[d]. */
  const ENCODE_KEY: string := "JABCDEFGHI"
}
