/**
 * What `MandrillTransport::getMandrillMessage` computes, as functions of the
 * message and the configured sub-account, and the properties of the payload
 * it builds. `Transport` proves its step-by-step construction equal to
 * `MandrillMessage`.
 */
module Mapper {
  import opened Wrappers
  import opened Strings
  import opened Mail
  import opened MandrillApi
  import Base64

  const TextPlain := "text/plain"
  const TextHtml := "text/html"

  const ReplyTo := "Reply-To"
  const ListUnsubscribe := "List-Unsubscribe"
  const InlineCssHeader := "X-MC-InlineCSS"
  const TagsHeader := "X-MC-Tags"
  const AutotextHeader := "X-MC-Autotext"
  const GoogleAnalyticsHeader := "X-MC-GoogleAnalytics"
  const GoogleAnalyticsCampaignHeader := "X-MC-GoogleAnalyticsCampaign"
  const TrackingDomainHeader := "X-MC-TrackingDomain"

  // ---------------------------------------------------------------------
  // Content types and the primary body
  // ---------------------------------------------------------------------

  /** The body types Mandrill accepts. */
  function SupportedContentTypes(): (types: seq<string>)
    ensures |types| == 2 && TextPlain in types && TextHtml in types
  {
    [TextPlain, TextHtml]
  }

  /** `in_array` over the supported types: the two body types, compared exactly. */
  predicate SupportsContentType(contentType: string)
    ensures SupportsContentType(contentType) <==> contentType == TextPlain || contentType == TextHtml
  {
    contentType in SupportedContentTypes()
  }

  /**
   * The content type of the message body: the declared type when Mandrill
   * supports it, otherwise the type recorded when the message was built, if
   * the message records one.
   */
  function PrimaryContentType(declared: string, userContentType: Option<string>): (t: string)
    ensures SupportsContentType(declared) ==> t == declared
    ensures !SupportsContentType(declared) && userContentType.Some? ==> t == userContentType.value
    ensures !SupportsContentType(declared) && userContentType.None? ==> t == declared
  {
    if SupportsContentType(declared) then declared
    else if userContentType.Some? then userContentType.value
    else declared
  }

  datatype Bodies = Bodies(html: Option<string>, text: Option<string>)

  /** The body goes to `text` for `text/plain` and to `html` for every other type. */
  function InitialBodies(primary: string, body: string): (b: Bodies)
    ensures b.text.Some? <==> primary == TextPlain
    ensures b.html.Some? <==> primary != TextPlain
    ensures b.text.Some? ==> b.text.value == body
    ensures b.html.Some? ==> b.html.value == body
  {
    if primary == TextPlain then Bodies(None, Some(body))
    else if primary == TextHtml then Bodies(Some(body), None)
    else Bodies(Some(body), None)
  }

  // ---------------------------------------------------------------------
  // Recipients and Reply-To
  // ---------------------------------------------------------------------

  /** The addresses of one group as payload recipients with the group's role, in order. */
  function Tagged(addrs: seq<Address>, role: Role): (r: seq<Recipient>)
    ensures |r| == |addrs|
    ensures forall i :: 0 <= i < |r| ==> r[i] == Recipient(addrs[i].email, addrs[i].name, role)
    decreases |addrs|
  {
    if addrs == [] then []
    else
      var last := addrs[|addrs| - 1];
      Tagged(addrs[..|addrs| - 1], role) + [Recipient(last.email, last.name, role)]
  }

  /**
   * The payload's `to` list: the to group, then cc, then bcc. The role of each
   * entry, and so its `type` on the wire, is decided by its position alone.
   */
  function Recipients(m: Message): (r: seq<Recipient>)
    ensures |r| == |m.to| + |m.cc| + |m.bcc|
    ensures forall i :: 0 <= i < |r| ==>
      (r[i].role.Name() == "to" <==> i < |m.to|)
      && (r[i].role.Name() == "cc" <==> |m.to| <= i < |m.to| + |m.cc|)
      && (r[i].role.Name() == "bcc" <==> |m.to| + |m.cc| <= i)
  {
    Tagged(m.to, To) + Tagged(m.cc, Cc) + Tagged(m.bcc, Bcc)
  }

  /** The Reply-To value of one address: `email <name>` when the name is truthy, else the email. */
  function FormatReplyTo(a: Address): (v: string)
    ensures StartsWith(v, a.email)
    ensures !Truthy(a.name) ==> v == a.email
    ensures Truthy(a.name) ==> v[|a.email|..] == " <" + a.name.value + ">"
  {
    if Truthy(a.name) then a.email + " <" + a.name.value + ">" else a.email
  }

  /** The headers set from the reply-to list: one `Reply-To` from its last entry, none when empty. */
  function ReplyToHeaders(replyTo: seq<Address>): (h: map<string, string>)
    ensures ReplyTo in h <==> replyTo != []
    ensures h.Keys <= {ReplyTo}
  {
    if replyTo == [] then map[] else map[ReplyTo := FormatReplyTo(replyTo[|replyTo| - 1])]
  }

  // ---------------------------------------------------------------------
  // Child entities
  // ---------------------------------------------------------------------

  /** The payload entries of the image children, in document order. */
  function ImageEntries(cs: seq<Child>): (r: seq<FileEntry>)
    ensures |r| <= |cs|
    decreases |cs|
  {
    if cs == [] then []
    else
      var c := cs[|cs| - 1];
      ImageEntries(cs[..|cs| - 1])
        + (if c.Image? then [FileEntry(c.contentType, c.id, Base64.Encode(c.data))] else [])
  }

  /** The payload entries of the attachment children that are not images, in document order. */
  function AttachmentEntries(cs: seq<Child>): (r: seq<FileEntry>)
    ensures |r| <= |cs|
    decreases |cs|
  {
    if cs == [] then []
    else
      var c := cs[|cs| - 1];
      AttachmentEntries(cs[..|cs| - 1])
        + (if c.Attachment? then [FileEntry(c.contentType, c.filename, Base64.Encode(c.data))] else [])
  }

  /** `c` is an alternative body of the given supported type. */
  predicate BodyPartOf(c: Child, contentType: string) {
    c.MimePart? && SupportsContentType(c.contentType) && c.contentType == contentType
  }

  /** The body of the last alternative part of the given type, or `initial` when there is none. */
  function AlternativeBody(cs: seq<Child>, contentType: string, initial: Option<string>): (b: Option<string>)
    ensures b == initial || exists k :: 0 <= k < |cs| && BodyPartOf(cs[k], contentType) && b == Some(cs[k].body)
    decreases |cs|
  {
    if cs == [] then initial
    else if BodyPartOf(cs[|cs| - 1], contentType) then Some(cs[|cs| - 1].body)
    else
      var init := cs[..|cs| - 1];
      assert forall k :: 0 <= k < |init| ==> init[k] == cs[k];
      AlternativeBody(init, contentType, initial)
  }

  /** A key is present only for a non-empty list. */
  function NonEmpty<T>(s: seq<T>): (r: Option<seq<T>>)
    ensures r.Some? <==> s != []
    ensures r.Some? ==> r.value == s
  {
    if |s| > 0 then Some(s) else None
  }

  // ---------------------------------------------------------------------
  // Header translation
  // ---------------------------------------------------------------------

  /** The header names with a Mandrill feature of their own, all in the `X-MC-` namespace. */
  predicate IsFeatureHeader(name: string)
    ensures IsFeatureHeader(name) ==> StartsWith(name, "X-MC-")
  {
    name == InlineCssHeader || name == TagsHeader || name == AutotextHeader
    || name == GoogleAnalyticsHeader || name == GoogleAnalyticsCampaignHeader
    || name == TrackingDomainHeader
  }

  /**
   * The header names copied into the payload's `headers`: `List-Unsubscribe` and
   * every `X-` name without a feature of its own; never `Reply-To`.
   */
  predicate IsPassthrough(name: string)
    ensures IsPassthrough(name) ==> !IsFeatureHeader(name)
    ensures StartsWith(name, "X-") ==> (IsPassthrough(name) <==> !IsFeatureHeader(name))
    ensures name == ReplyTo ==> !IsPassthrough(name)
  {
    assert ReplyTo[..2][0] == 'R';
    name == ListUnsubscribe || (StartsWith(name, "X-") && !IsFeatureHeader(name))
  }

  /** The `auto_text` flag an `X-MC-Autotext` value asks for; `None` for any other value. */
  function AutotextFlag(value: string): (flag: Option<bool>)
    ensures flag == Some(true) <==> value in ["true", "on", "yes", "y"]
    ensures flag == Some(false) <==> value in ["false", "off", "no", "n"]
  {
    if value in ["true", "on", "yes", "y"] then Some(true)
    else if value in ["false", "off", "no", "n"] then Some(false)
    else None
  }

  /** The effect of one header on the payload (one pass of the header `switch`). */
  function ApplyHeader(p: Payload, h: Header): (r: Payload)
    ensures !h.isText ==> r == p
    ensures !IsFeatureHeader(h.name) && !IsPassthrough(h.name) ==> r == p
  {
    if !h.isText then p
    else if h.name == ListUnsubscribe then p.(headers := p.headers[h.name := h.value])
    else if h.name == InlineCssHeader then p.(inlineCss := Some(h.value))
    else if h.name == TagsHeader then p.(tags := Split(h.value, ','))
    else if h.name == AutotextHeader then
      (match AutotextFlag(h.value)
       case Some(b) => p.(autoText := Some(b))
       case None => p)
    else if h.name == GoogleAnalyticsHeader then p.(googleAnalyticsDomains := Some(Split(h.value, ',')))
    else if h.name == GoogleAnalyticsCampaignHeader then p.(googleAnalyticsCampaign := Some(h.value))
    else if h.name == TrackingDomainHeader then p.(trackingDomain := Some(h.value))
    else if StartsWith(h.name, "X-") then p.(headers := p.headers[h.name := h.value])
    else p
  }

  /** The headers applied in their stored order. */
  function Translate(p: Payload, hs: seq<Header>): (r: Payload)
    ensures forall k :: k in p.headers ==> k in r.headers
    ensures forall k :: k in r.headers && k !in p.headers ==> IsPassthrough(k)
    decreases |hs|
  {
    if hs == [] then p else ApplyHeader(Translate(p, hs[..|hs| - 1]), hs[|hs| - 1])
  }

  /** The value of the last text header with the given name. */
  function LastTextValue(hs: seq<Header>, name: string): Option<string>
    decreases |hs|
  {
    if hs == [] then None
    else if hs[|hs| - 1].isText && hs[|hs| - 1].name == name then Some(hs[|hs| - 1].value)
    else LastTextValue(hs[..|hs| - 1], name)
  }

  /** The flag of the last text `X-MC-Autotext` header whose value is one of the two vocabularies. */
  function LastAutotext(hs: seq<Header>): Option<bool>
    decreases |hs|
  {
    if hs == [] then None
    else
      var h := hs[|hs| - 1];
      if h.isText && h.name == AutotextHeader && AutotextFlag(h.value).Some? then AutotextFlag(h.value)
      else LastAutotext(hs[..|hs| - 1])
  }

  /** Headers change only the header-driven fields of the payload. */
  lemma {:induction false} TranslateKeeps(p: Payload, hs: seq<Header>)
    ensures var r := Translate(p, hs);
      r == p.(headers := r.headers, tags := r.tags, inlineCss := r.inlineCss, autoText := r.autoText,
              googleAnalyticsDomains := r.googleAnalyticsDomains,
              googleAnalyticsCampaign := r.googleAnalyticsCampaign, trackingDomain := r.trackingDomain)
    decreases |hs|
  {
    if hs != [] {
      TranslateKeeps(p, hs[..|hs| - 1]);
    }
  }

  // ---------------------------------------------------------------------
  // The whole payload
  // ---------------------------------------------------------------------

  /** The payload before the headers are read. */
  function BasePayload(m: Message): (p: Payload)
    requires m.from != []
    ensures p.headers.Keys <= {ReplyTo}
    ensures p.tags == [] && p.inlineCss.None? && p.autoText.None? && p.googleAnalyticsDomains.None?
    ensures p.googleAnalyticsCampaign.None? && p.trackingDomain.None? && p.subaccount.None?
    ensures p.attachments.Some? ==> p.attachments.value != []
    ensures p.images.Some? ==> p.images.value != []
  {
    var bodies := InitialBodies(PrimaryContentType(m.contentType, m.userContentType), m.body);
    Payload(
      html := AlternativeBody(m.children, TextHtml, bodies.html),
      text := AlternativeBody(m.children, TextPlain, bodies.text),
      subject := m.subject,
      fromEmail := m.from[0].email,
      fromName := m.from[0].name,
      to := Recipients(m),
      headers := ReplyToHeaders(m.replyTo),
      tags := [],
      inlineCss := None,
      attachments := NonEmpty(AttachmentEntries(m.children)),
      images := NonEmpty(ImageEntries(m.children)),
      autoText := None,
      googleAnalyticsDomains := None,
      googleAnalyticsCampaign := None,
      trackingDomain := None,
      subaccount := None)
  }

  /** The sub-account is attached only when it is truthy. */
  function WithSubAccount(p: Payload, subAccount: Option<string>): (r: Payload)
    ensures r.subaccount == (if Truthy(subAccount) then subAccount else p.subaccount)
    ensures r.(subaccount := p.subaccount) == p
  {
    if Truthy(subAccount) then p.(subaccount := subAccount) else p
  }

  /** The Mandrill payload for a message sent with the given sub-account configuration. */
  function MandrillMessage(m: Message, subAccount: Option<string>): (p: Payload)
    requires m.from != []
    ensures p.subject == m.subject && p.fromEmail == m.from[0].email && p.fromName == m.from[0].name
    ensures p.to == Recipients(m)
    ensures forall k :: k in p.headers ==> k == ReplyTo || IsPassthrough(k)
  {
    TranslateKeeps(BasePayload(m), m.headers);
    WithSubAccount(Translate(BasePayload(m), m.headers), subAccount)
  }
}
