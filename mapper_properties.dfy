/** Properties of the payload that `MandrillTransport::getMandrillMessage` builds. */
module MapperProperties {
  import opened Wrappers
  import opened Strings
  import opened Mail
  import opened MandrillApi
  import opened Mapper

  // ---------------------------------------------------------------------
  // Header translation
  // ---------------------------------------------------------------------

  /** `tags` and `google_analytics_domains` are the pieces of the last text header of their name. */
  lemma {:induction false} TranslateSplitFields(p: Payload, hs: seq<Header>)
    ensures var r, v := Translate(p, hs), LastTextValue(hs, TagsHeader);
      r.tags == if v.Some? then Split(v.value, ',') else p.tags
    ensures var r, v := Translate(p, hs), LastTextValue(hs, GoogleAnalyticsHeader);
      r.googleAnalyticsDomains == if v.Some? then Some(Split(v.value, ',')) else p.googleAnalyticsDomains
    decreases |hs|
  {
    if hs != [] {
      TranslateSplitFields(p, hs[..|hs| - 1]);
    }
  }

  /** `inline_css`, `google_analytics_campaign` and `tracking_domain` are the last text header of their name, verbatim. */
  lemma {:induction false} TranslateVerbatimFields(p: Payload, hs: seq<Header>)
    ensures var r, v := Translate(p, hs), LastTextValue(hs, InlineCssHeader);
      r.inlineCss == if v.Some? then v else p.inlineCss
    ensures var r, v := Translate(p, hs), LastTextValue(hs, GoogleAnalyticsCampaignHeader);
      r.googleAnalyticsCampaign == if v.Some? then v else p.googleAnalyticsCampaign
    ensures var r, v := Translate(p, hs), LastTextValue(hs, TrackingDomainHeader);
      r.trackingDomain == if v.Some? then v else p.trackingDomain
    decreases |hs|
  {
    if hs != [] {
      TranslateVerbatimFields(p, hs[..|hs| - 1]);
    }
  }

  /** `auto_text` is the flag of the last text `X-MC-Autotext` header with a recognised value. */
  lemma {:induction false} TranslateAutotext(p: Payload, hs: seq<Header>)
    ensures var r, f := Translate(p, hs), LastAutotext(hs);
      r.autoText == if f.Some? then f else p.autoText
    decreases |hs|
  {
    if hs != [] {
      TranslateAutotext(p, hs[..|hs| - 1]);
    }
  }

  /**
   * The `headers` map after translation: a pass-through name (`List-Unsubscribe`
   * or an `X-` name without a feature of its own) carries the value of its last
   * text header; every other key keeps what it had.
   */
  lemma {:induction false} TranslateHeaderMap(p: Payload, hs: seq<Header>, k: string)
    ensures var r, v := Translate(p, hs).headers, LastTextValue(hs, k);
      && (k in r <==> k in p.headers || (IsPassthrough(k) && v.Some?))
      && (IsPassthrough(k) && v.Some? ==> r[k] == v.value)
      && (!(IsPassthrough(k) && v.Some?) && k in p.headers ==> r[k] == p.headers[k])
    decreases |hs|
  {
    if hs != [] {
      var init := hs[..|hs| - 1];
      var h := hs[|hs| - 1];
      TranslateHeaderMap(p, init, k);
      var q := Translate(p, init);
      assert Translate(p, hs) == ApplyHeader(q, h);
      if h.isText && h.name == k {
        assert LastTextValue(hs, k) == Some(h.value);
      } else {
        assert LastTextValue(hs, k) == LastTextValue(init, k);
        assert ApplyHeader(q, h).headers == q.headers
            || ApplyHeader(q, h).headers == q.headers[h.name := h.value];
      }
    }
  }

  // ---------------------------------------------------------------------
  // Child entities
  // ---------------------------------------------------------------------

  /** The last alternative part of a type provides that body. */
  lemma {:induction false} AlternativeBodyLast(cs: seq<Child>, contentType: string, initial: Option<string>, j: nat)
    requires j < |cs| && BodyPartOf(cs[j], contentType)
    requires forall k :: j < k < |cs| ==> !BodyPartOf(cs[k], contentType)
    ensures AlternativeBody(cs, contentType, initial) == Some(cs[j].body)
    decreases |cs|
  {
    if j < |cs| - 1 {
      var init := cs[..|cs| - 1];
      assert !BodyPartOf(cs[|cs| - 1], contentType);
      assert init[j] == cs[j];
      assert forall k :: j < k < |init| ==> init[k] == cs[k];
      AlternativeBodyLast(init, contentType, initial, j);
    }
  }

  /** Without an alternative part of a type, the body of that type is left as it was. */
  lemma {:induction false} AlternativeBodyNone(cs: seq<Child>, contentType: string, initial: Option<string>)
    requires forall k :: 0 <= k < |cs| ==> !BodyPartOf(cs[k], contentType)
    ensures AlternativeBody(cs, contentType, initial) == initial
    decreases |cs|
  {
    if cs != [] {
      var init := cs[..|cs| - 1];
      assert forall k :: 0 <= k < |init| ==> init[k] == cs[k];
      AlternativeBodyNone(init, contentType, initial);
    }
  }

  /** Image entries follow document order: the entries of a concatenation are concatenated. */
  lemma {:induction false} ImageEntriesAppend(cs: seq<Child>, ds: seq<Child>)
    ensures ImageEntries(cs + ds) == ImageEntries(cs) + ImageEntries(ds)
    decreases |ds|
  {
    if ds == [] {
      assert cs + ds == cs;
    } else {
      assert (cs + ds)[..|cs + ds| - 1] == cs + ds[..|ds| - 1];
      assert (cs + ds)[|cs + ds| - 1] == ds[|ds| - 1];
      ImageEntriesAppend(cs, ds[..|ds| - 1]);
    }
  }

  /** Attachment entries follow document order: the entries of a concatenation are concatenated. */
  lemma {:induction false} AttachmentEntriesAppend(cs: seq<Child>, ds: seq<Child>)
    ensures AttachmentEntries(cs + ds) == AttachmentEntries(cs) + AttachmentEntries(ds)
    decreases |ds|
  {
    if ds == [] {
      assert cs + ds == cs;
    } else {
      assert (cs + ds)[..|cs + ds| - 1] == cs + ds[..|ds| - 1];
      assert (cs + ds)[|cs + ds| - 1] == ds[|ds| - 1];
      AttachmentEntriesAppend(cs, ds[..|ds| - 1]);
    }
  }

  /** There are image entries exactly when some child is an image. */
  lemma {:induction false} ImageEntriesNonEmpty(cs: seq<Child>)
    ensures ImageEntries(cs) != [] <==> exists i :: 0 <= i < |cs| && cs[i].Image?
    decreases |cs|
  {
    if cs != [] {
      var init := cs[..|cs| - 1];
      ImageEntriesNonEmpty(init);
      if exists i :: 0 <= i < |init| && init[i].Image? {
        var i :| 0 <= i < |init| && init[i].Image?;
        assert cs[i] == init[i];
      }
      if exists i :: 0 <= i < |cs| && cs[i].Image? {
        var i :| 0 <= i < |cs| && cs[i].Image?;
        if i < |init| {
          assert init[i] == cs[i];
        }
      }
    }
  }

  /** There are attachment entries exactly when some child is a (non-image) attachment. */
  lemma {:induction false} AttachmentEntriesNonEmpty(cs: seq<Child>)
    ensures AttachmentEntries(cs) != [] <==> exists i :: 0 <= i < |cs| && cs[i].Attachment?
    decreases |cs|
  {
    if cs != [] {
      var init := cs[..|cs| - 1];
      AttachmentEntriesNonEmpty(init);
      if exists i :: 0 <= i < |init| && init[i].Attachment? {
        var i :| 0 <= i < |init| && init[i].Attachment?;
        assert cs[i] == init[i];
      }
      if exists i :: 0 <= i < |cs| && cs[i].Attachment? {
        var i :| 0 <= i < |cs| && cs[i].Attachment?;
        if i < |init| {
          assert init[i] == cs[i];
        }
      }
    }
  }

  /**
   * One child: an image gives one image entry named by its id, an attachment
   * one attachment entry named by its file name, both with base 64 content;
   * anything else gives neither.
   */
  lemma EntriesOfOne(c: Child)
    ensures ImageEntries([c]) == if c.Image? then [FileEntry(c.contentType, c.id, Base64.Encode(c.data))] else []
    ensures AttachmentEntries([c]) == if c.Attachment? then [FileEntry(c.contentType, c.filename, Base64.Encode(c.data))] else []
  {
  }

  // ---------------------------------------------------------------------
  // The payload of a message
  // ---------------------------------------------------------------------

  /** The header-independent fields of the payload. */
  lemma PayloadBase(m: Message, subAccount: Option<string>)
    requires m.from != []
    ensures var p, b := MandrillMessage(m, subAccount), BasePayload(m);
      && p.html == b.html && p.text == b.text && p.subject == m.subject
      && p.fromEmail == m.from[0].email && p.fromName == m.from[0].name
      && p.to == b.to && p.attachments == b.attachments && p.images == b.images
  {
    TranslateKeeps(BasePayload(m), m.headers);
  }

  /**
   * Without alternative parts, the body is `text` when the primary content type
   * is exactly `text/plain` and `html` otherwise, and the other one is null.
   */
  lemma BodyAssignment(m: Message, subAccount: Option<string>)
    requires m.from != []
    requires forall k :: 0 <= k < |m.children| ==> !(m.children[k].MimePart? && SupportsContentType(m.children[k].contentType))
    ensures var p := MandrillMessage(m, subAccount);
      if PrimaryContentType(m.contentType, m.userContentType) == TextPlain
      then p.text == Some(m.body) && p.html == None
      else p.html == Some(m.body) && p.text == None
  {
    PayloadBase(m, subAccount);
    var bodies := InitialBodies(PrimaryContentType(m.contentType, m.userContentType), m.body);
    AlternativeBodyNone(m.children, TextHtml, bodies.html);
    AlternativeBodyNone(m.children, TextPlain, bodies.text);
  }

  /** The last `text/html` (or `text/plain`) alternative part overrides the `html` (or `text`) body. */
  lemma LastBodyPartWins(m: Message, subAccount: Option<string>, j: nat)
    requires m.from != []
    requires j < |m.children| && m.children[j].MimePart? && SupportsContentType(m.children[j].contentType)
    requires forall k :: j < k < |m.children| ==> !BodyPartOf(m.children[k], m.children[j].contentType)
    ensures var p := MandrillMessage(m, subAccount);
      if m.children[j].contentType == TextHtml then p.html == Some(m.children[j].body)
      else p.text == Some(m.children[j].body)
  {
    PayloadBase(m, subAccount);
    var bodies := InitialBodies(PrimaryContentType(m.contentType, m.userContentType), m.body);
    if m.children[j].contentType == TextHtml {
      AlternativeBodyLast(m.children, TextHtml, bodies.html, j);
    } else {
      AlternativeBodyLast(m.children, TextPlain, bodies.text, j);
    }
  }

  /**
   * The `to` list holds every to, then every cc, then every bcc address, each
   * group in order and with its role.
   */
  lemma RecipientList(m: Message, subAccount: Option<string>)
    requires m.from != []
    ensures var r, nt, nc := MandrillMessage(m, subAccount).to, |m.to|, |m.cc|;
      && |r| == |m.to| + |m.cc| + |m.bcc|
      && (forall i :: 0 <= i < nt ==> r[i] == Recipient(m.to[i].email, m.to[i].name, To))
      && (forall i :: 0 <= i < nc ==> r[nt + i] == Recipient(m.cc[i].email, m.cc[i].name, Cc))
      && (forall i :: 0 <= i < |m.bcc| ==> r[nt + nc + i] == Recipient(m.bcc[i].email, m.bcc[i].name, Bcc))
  {
    PayloadBase(m, subAccount);
  }

  /** The reply-to list never reaches the recipients: the `to` list does not depend on it. */
  lemma RecipientsIgnoreReplyTo(m: Message, subAccount: Option<string>, replyTo: seq<Address>)
    requires m.from != []
    ensures MandrillMessage(m.(replyTo := replyTo), subAccount).to == MandrillMessage(m, subAccount).to
  {
    PayloadBase(m, subAccount);
    PayloadBase(m.(replyTo := replyTo), subAccount);
  }

  /**
   * `headers` holds `Reply-To` exactly when the reply-to list is not empty, with
   * the last entry as `email <name>` (or the bare email when the name is not
   * truthy); it also holds every pass-through header with the value of the last
   * one of its name, and nothing else.
   */
  lemma PayloadHeaders(m: Message, subAccount: Option<string>, k: string)
    requires m.from != []
    ensures var h, v := MandrillMessage(m, subAccount).headers, LastTextValue(m.headers, k);
      && (k in h <==> (k == ReplyTo && m.replyTo != []) || (IsPassthrough(k) && v.Some?))
      && (IsPassthrough(k) && v.Some? ==> h[k] == v.value)
      && (k == ReplyTo && m.replyTo != [] ==>
            var a := m.replyTo[|m.replyTo| - 1];
            h[k] == if Truthy(a.name) then a.email + " <" + a.name.value + ">" else a.email)
  {
    TranslateHeaderMap(BasePayload(m), m.headers, k);
    assert !StartsWith(ReplyTo, "X-") by { assert ReplyTo[..2][0] == 'R'; }
  }

  /**
   * `images` and `attachments` are present exactly when the message has image
   * (respectively attachment) children, and then hold their entries.
   */
  lemma PayloadEntries(m: Message, subAccount: Option<string>)
    requires m.from != []
    ensures var p, cs := MandrillMessage(m, subAccount), m.children;
      && (p.images.Some? <==> exists i :: 0 <= i < |cs| && cs[i].Image?)
      && (p.images.Some? ==> p.images.value == ImageEntries(cs))
      && (p.attachments.Some? <==> exists i :: 0 <= i < |cs| && cs[i].Attachment?)
      && (p.attachments.Some? ==> p.attachments.value == AttachmentEntries(cs))
  {
    PayloadBase(m, subAccount);
    ImageEntriesNonEmpty(m.children);
    AttachmentEntriesNonEmpty(m.children);
  }

  /** The feature fields of the payload come from the last header of each name. */
  lemma PayloadFeatures(m: Message, subAccount: Option<string>)
    requires m.from != []
    ensures var p, v := MandrillMessage(m, subAccount), LastTextValue(m.headers, TagsHeader);
      p.tags == if v.Some? then Split(v.value, ',') else []
    ensures var p, v := MandrillMessage(m, subAccount), LastTextValue(m.headers, InlineCssHeader);
      p.inlineCss == v
    ensures MandrillMessage(m, subAccount).autoText == LastAutotext(m.headers)
    ensures var p, v := MandrillMessage(m, subAccount), LastTextValue(m.headers, GoogleAnalyticsHeader);
      p.googleAnalyticsDomains == if v.Some? then Some(Split(v.value, ',')) else None
    ensures MandrillMessage(m, subAccount).googleAnalyticsCampaign == LastTextValue(m.headers, GoogleAnalyticsCampaignHeader)
    ensures MandrillMessage(m, subAccount).trackingDomain == LastTextValue(m.headers, TrackingDomainHeader)
  {
    TranslateSplitFields(BasePayload(m), m.headers);
    TranslateVerbatimFields(BasePayload(m), m.headers);
    TranslateAutotext(BasePayload(m), m.headers);
  }

  /**
   * `subaccount` is present exactly when the configured sub-account is truthy,
   * and the sub-account changes nothing else.
   */
  lemma SubAccount(m: Message, subAccount: Option<string>)
    requires m.from != []
    ensures MandrillMessage(m, subAccount).subaccount == if Truthy(subAccount) then subAccount else None
    ensures MandrillMessage(m, subAccount).(subaccount := None) == MandrillMessage(m, None)
  {
    TranslateKeeps(BasePayload(m), m.headers);
  }

  // ---------------------------------------------------------------------
  // Examples
  // ---------------------------------------------------------------------

  /** `X-MC-Tags: a,b,c` gives the tags `a`, `b`, `c`. */
  lemma TagsExample()
    ensures Split("a,b,c", ',') == ["a", "b", "c"]
  {
    assert "c"[1..] == "" && ['c'] + "" == "c" && [""][1..] == [];
    assert Split("c", ',') == ["c"];
    assert ",c"[1..] == "c";
    assert Split(",c", ',') == ["", "c"];
    assert "b,c"[1..] == ",c" && ['b'] + "" == "b" && ["", "c"][1..] == ["c"];
    assert Split("b,c", ',') == ["b", "c"];
    assert ",b,c"[1..] == "b,c";
    assert Split(",b,c", ',') == ["", "b", "c"];
    assert "a,b,c"[1..] == ",b,c" && ['a'] + "" == "a" && ["", "b", "c"][1..] == ["b", "c"];
  }

  /** `yes` switches `auto_text` on, `maybe` leaves it unset. */
  lemma AutotextExample()
    ensures AutotextFlag("yes") == Some(true) && AutotextFlag("maybe") == None
  {
  }

  /** A custom `X-` header passes through. */
  lemma PassthroughExample()
    ensures IsPassthrough("X-Custom-Foo") && !IsPassthrough("Reply-To") && !IsPassthrough(TagsHeader)
  {
    assert "X-Custom-Foo"[..2] == "X-";
    assert "Reply-To"[..2][0] == 'R';
  }
}
