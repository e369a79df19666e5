/**
 * `MandrillTransport`: configuration fields, the step-by-step construction of
 * the payload (proved equal to `Mapper.MandrillMessage`) and `send`.
 */
module Transport {
  import opened Wrappers
  import opened Strings
  import opened Mail
  import opened MandrillApi
  import opened Mapper
  import Base64

  /** `Swift_TransportException` raised by `createMandrill`. */
  datatype TransportError = ApiKeyIsNull

  /** A Mandrill client, built from an API key. */
  datatype Client = Mandrill(apiKey: string)

  /** A `messages->send` call: the client, the payload and the async flag. */
  datatype Request = Request(client: Client, payload: Payload, async: Option<bool>)

  /** The result recorded on the send event after the provider answered. */
  datatype EventResult = ResultSuccess | ResultFailed

  // ---------------------------------------------------------------------
  // The loops of getMandrillMessage
  // ---------------------------------------------------------------------

  /** Appends the recipients of one address group, with its role, to `to`. */
  method AppendRecipients(to: seq<Recipient>, addrs: seq<Address>, role: Role) returns (r: seq<Recipient>)
    ensures r == to + Tagged(addrs, role)
  {
    r := to;
    for i := 0 to |addrs|
      invariant r == to + Tagged(addrs[..i], role)
    {
      r := r + [Recipient(addrs[i].email, addrs[i].name, role)];
      assert addrs[..i + 1][..i] == addrs[..i];
    }
    assert addrs[..|addrs|] == addrs;
  }

  /** Sets `Reply-To` once per reply-to address, so that the last one stays. */
  method ReplyToHeader(replyTo: seq<Address>) returns (headers: map<string, string>)
    ensures headers == ReplyToHeaders(replyTo)
  {
    headers := map[];
    for i := 0 to |replyTo|
      invariant headers == ReplyToHeaders(replyTo[..i])
    {
      var a := replyTo[i];
      if Truthy(a.name) {
        headers := headers[ReplyTo := a.email + " <" + a.name.value + ">"];
      } else {
        headers := headers[ReplyTo := a.email];
      }
      assert replyTo[..i + 1][i] == a;
    }
    assert replyTo[..|replyTo|] == replyTo;
  }

  /**
   * Sorts the children into images and attachments, in document order, and lets
   * alternative parts of a supported type replace the corresponding body.
   */
  method ClassifyChildren(children: seq<Child>, html0: Option<string>, text0: Option<string>)
    returns (images: seq<FileEntry>, attachments: seq<FileEntry>, html: Option<string>, text: Option<string>)
    ensures images == ImageEntries(children) && attachments == AttachmentEntries(children)
    ensures html == AlternativeBody(children, TextHtml, html0)
    ensures text == AlternativeBody(children, TextPlain, text0)
  {
    images, attachments, html, text := [], [], html0, text0;
    for i := 0 to |children|
      invariant images == ImageEntries(children[..i])
      invariant attachments == AttachmentEntries(children[..i])
      invariant html == AlternativeBody(children[..i], TextHtml, html0)
      invariant text == AlternativeBody(children[..i], TextPlain, text0)
    {
      var child := children[i];
      assert children[..i + 1][..i] == children[..i] && children[..i + 1][i] == child;
      match child
      case Image(contentType, id, data) =>
        images := images + [FileEntry(contentType, id, Base64.Encode(data))];
      case Attachment(contentType, filename, data) =>
        attachments := attachments + [FileEntry(contentType, filename, Base64.Encode(data))];
      case MimePart(contentType, body) =>
        if SupportsContentType(contentType) {
          if contentType == TextHtml {
            html := Some(body);
          } else if contentType == TextPlain {
            text := Some(body);
          }
        }
      case OtherEntity(_) =>
    }
    assert children[..|children|] == children;
  }

  /** Reads the headers in order, as the `switch` over field names does. */
  method TranslateHeaders(p0: Payload, hs: seq<Header>) returns (p: Payload)
    ensures p == Translate(p0, hs)
  {
    p := p0;
    var headers := p0.headers;
    for i := 0 to |hs|
      invariant p == Translate(p0, hs[..i])
      invariant headers == p.headers
    {
      var header := hs[i];
      assert hs[..i + 1][..i] == hs[..i] && hs[..i + 1][i] == header;
      if header.isText {
        var name := header.name;
        if name == ListUnsubscribe {
          headers := headers[ListUnsubscribe := header.value];
          p := p.(headers := headers);
        } else if name == InlineCssHeader {
          p := p.(inlineCss := Some(header.value));
        } else if name == TagsHeader {
          p := p.(tags := Split(header.value, ','));
        } else if name == AutotextHeader {
          var autoText := header.value;
          if autoText in ["true", "on", "yes", "y"] {
            p := p.(autoText := Some(true));
          }
          if autoText in ["false", "off", "no", "n"] {
            p := p.(autoText := Some(false));
          }
        } else if name == GoogleAnalyticsHeader {
          p := p.(googleAnalyticsDomains := Some(Split(header.value, ',')));
        } else if name == GoogleAnalyticsCampaignHeader {
          p := p.(googleAnalyticsCampaign := Some(header.value));
        } else if name == TrackingDomainHeader {
          p := p.(trackingDomain := Some(header.value));
        } else if StartsWith(name, "X-") {
          headers := headers[name := header.value];
          p := p.(headers := headers);
        }
      }
    }
    assert hs[..|hs|] == hs;
  }

  // ---------------------------------------------------------------------
  // The transport
  // ---------------------------------------------------------------------

  class MandrillTransport {
    var apiKey: Option<string>
    var async: Option<bool>
    var subAccount: Option<string>
    /** The provider's last answer, kept for diagnostics. */
    var resultApi: Option<seq<ApiRecord>>

    constructor ()
      ensures apiKey == None && async == None && subAccount == None && resultApi == None
    {
      apiKey, async, subAccount, resultApi := None, None, None, None;
    }

    method SetApiKey(key: string)
      modifies this`apiKey
      ensures apiKey == Some(key)
    {
      apiKey := Some(key);
    }

    method SetAsync(value: bool)
      modifies this`async
      ensures async == Some(value)
    {
      async := Some(value);
    }

    method SetSubAccount(value: Option<string>)
      modifies this`subAccount
      ensures subAccount == value
    {
      subAccount := value;
    }

    /** A client for the configured key; a null key is an error. */
    function CreateMandrill(): (r: Result<Client, TransportError>)
      reads this
      ensures r.Failure? <==> apiKey.None?
      ensures r.Success? ==> r.value == Mandrill(apiKey.value)
    {
      if apiKey.None? then Failure(ApiKeyIsNull) else Success(Mandrill(apiKey.value))
    }

    /** Builds the Mandrill payload of a message. */
    method GetMandrillMessage(message: Message) returns (p: Payload)
      requires message.from != []
      ensures p == MandrillMessage(message, subAccount)
    {
      var contentType := PrimaryContentType(message.contentType, message.userContentType);
      var to := AppendRecipients([], message.to, To);
      var headers := ReplyToHeader(message.replyTo);
      to := AppendRecipients(to, message.cc, Cc);
      to := AppendRecipients(to, message.bcc, Bcc);
      assert to == Recipients(message);

      var bodyHtml: Option<string>, bodyText: Option<string> := None, None;
      if contentType == TextPlain {
        bodyText := Some(message.body);
      } else if contentType == TextHtml {
        bodyHtml := Some(message.body);
      } else {
        bodyHtml := Some(message.body);
      }

      var images, attachments;
      images, attachments, bodyHtml, bodyText := ClassifyChildren(message.children, bodyHtml, bodyText);

      p := Payload(
        html := bodyHtml, text := bodyText, subject := message.subject,
        fromEmail := message.from[0].email, fromName := message.from[0].name,
        to := to, headers := headers, tags := [], inlineCss := None,
        attachments := None, images := None, autoText := None,
        googleAnalyticsDomains := None, googleAnalyticsCampaign := None,
        trackingDomain := None, subaccount := None);
      if |attachments| > 0 {
        p := p.(attachments := Some(attachments));
      }
      if |images| > 0 {
        p := p.(images := Some(images));
      }
      assert p == BasePayload(message);
      ghost var base := p;

      p := TranslateHeaders(p, message.headers);
      assert MandrillMessage(message, subAccount) == WithSubAccount(Translate(base, message.headers), subAccount);

      if Truthy(subAccount) {
        p := p.(subaccount := subAccount);
      }
    }

    /**
     * Sends a message. `hasEvent` says whether the dispatcher created a send
     * event and `cancelled` whether a listener cancelled it before sending;
     * `response` is the provider's answer to the request. Returns the number of
     * recipients sent or queued (or the error), the failed-recipients list with
     * the failures appended, the request made to the provider (if any) and the
     * result recorded on the event (if one was dispatched after sending).
     */
    method Send(message: Message, hasEvent: bool, cancelled: bool, response: seq<ApiRecord>,
                failedRecipients: seq<string>)
      returns (sent: Result<nat, TransportError>, failed: seq<string>, request: Option<Request>,
               eventResult: Option<EventResult>)
      requires (hasEvent && cancelled) || message.from != []
      modifies this`resultApi
      ensures hasEvent && cancelled ==>
        sent == Success(0) && failed == failedRecipients && request == None && eventResult == None
        && resultApi == None
      ensures !(hasEvent && cancelled) && apiKey.None? ==>
        sent == Failure(ApiKeyIsNull) && failed == failedRecipients && request == None && eventResult == None
        && resultApi == None
      ensures !(hasEvent && cancelled) && apiKey.Some? ==>
        && request == Some(Request(Mandrill(apiKey.value), MandrillMessage(message, subAccount), async))
        && sent == Success(DeliveredCount(response))
        && failed == failedRecipients + FailedEmails(response)
        && resultApi == Some(response)
        && eventResult == (if !hasEvent then None
                           else if DeliveredCount(response) > 0 then Some(ResultSuccess)
                           else Some(ResultFailed))
    {
      failed, request, eventResult := failedRecipients, None, None;
      resultApi := None;
      if hasEvent {
        // The event is dispatched as beforeSendPerformed here.
        if cancelled {
          return Success(0), failed, request, eventResult;
        }
      }

      var sendCount: nat := 0;
      var mandrillMessage := GetMandrillMessage(message);
      var mandrill := CreateMandrill();
      if mandrill.Failure? {
        return Failure(mandrill.error), failed, request, eventResult;
      }
      request := Some(Request(mandrill.value, mandrillMessage, async));
      resultApi := Some(response);

      for i := 0 to |response|
        invariant sendCount == DeliveredCount(response[..i])
        invariant failed == failedRecipients + FailedEmails(response[..i])
      {
        var item := response[i];
        assert response[..i + 1][..i] == response[..i] && response[..i + 1][i] == item;
        if item.status == "sent" || item.status == "queued" {
          sendCount := sendCount + 1;
        } else {
          failed := failed + [item.email];
        }
      }
      assert response[..|response|] == response;

      if hasEvent {
        // The event is dispatched as sendPerformed with this result.
        eventResult := Some(if sendCount > 0 then ResultSuccess else ResultFailed);
      }
      sent := Success(sendCount);
    }
  }
}
