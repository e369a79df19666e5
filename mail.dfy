/**
 * The parts of a SwiftMailer message that the Mandrill transport reads. The
 * message is owned by the caller and never changed by the transport.
 */
module Mail {
  import opened Wrappers
  import Base64

  /** One entry of an address list: the email and its display name (null when unnamed). */
  datatype Address = Address(email: string, name: Option<string>)

  /**
   * A child entity of the message. SwiftMailer tells them apart by class:
   * `Swift_Image`, any other `Swift_Attachment`, a `Swift_MimePart` (an
   * alternative body), and any other MIME entity.
   */
  datatype Child =
    | Image(contentType: string, id: string, data: seq<Base64.byte>)
    | Attachment(contentType: string, filename: string, data: seq<Base64.byte>)
    | MimePart(contentType: string, body: string)
    | OtherEntity(contentType: string)

  /** A header field; `isText` says whether its field type is `Swift_Mime_Header::TYPE_TEXT`. */
  datatype Header = Header(name: string, value: string, isText: bool)

  /**
   * The message. Address lists keep their insertion order (a PHP array keyed by
   * email). `userContentType` is the content type given when the message was
   * built, which SwiftMailer hides once parts are attached; `None` when the
   * message class has no such property.
   */
  datatype Message = Message(
    subject: string,
    from: seq<Address>,
    to: seq<Address>,
    cc: seq<Address>,
    bcc: seq<Address>,
    replyTo: seq<Address>,
    contentType: string,
    userContentType: Option<string>,
    body: string,
    children: seq<Child>,
    headers: seq<Header>)
}
