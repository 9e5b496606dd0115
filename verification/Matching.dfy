/** What the streaming steps know of a message and of the step's match rules. */
module Matching {
  /** A decoded payload; the rules see nothing else of a message. */
  type Payload = string

  /** One message against the rules: an evaluation error is Broken. */
  datatype Check = Hit | Miss | Broken
}
