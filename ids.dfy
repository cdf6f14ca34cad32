/** Document ids as the handlers receive them: strings, checked against the ObjectId format. */
module Ids {

  /** User, post, comment, chat, message and notification ids all travel as strings. */
  type Id = string

  predicate IsHexDigit(c: char)
  {
    ('0' <= c <= '9') || ('a' <= c <= 'f') || ('A' <= c <= 'F')
  }

  /**
   * `mongoose.Types.ObjectId.isValid` on a string, and the cast `findById` applies before it
   * queries: 24 hexadecimal digits. Ids the store generates are of this form.
   */
  predicate ValidObjectId(s: string)
  {
    |s| == 24 && forall i :: 0 <= i < |s| ==> IsHexDigit(s[i])
  }
}
