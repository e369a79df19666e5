/**
 * The Mandrill side of the transport: the request payload of the
 * `messages/send` call and the per-recipient records of its answer.
 */
module MandrillApi {
  import opened Wrappers

  /** The `type` of an entry of the payload's `to` list. */
  datatype Role = To | Cc | Bcc {
    function Name(): string {
      match this
      case To => "to"
      case Cc => "cc"
      case Bcc => "bcc"
    }
  }

  datatype Recipient = Recipient(email: string, name: Option<string>, role: Role)

  /** An entry of `images` or `attachments`: MIME type, name, base 64 content. */
  datatype FileEntry = FileEntry(contentType: string, name: string, content: string)

  /**
   * The request payload. A field of type `Option` is null when `None`, except
   * `attachments`, `images`, `autoText`, `googleAnalyticsDomains`,
   * `googleAnalyticsCampaign`, `trackingDomain` and `subaccount`, whose key is
   * absent from the request when `None`.
   */
  datatype Payload = Payload(
    html: Option<string>,
    text: Option<string>,
    subject: string,
    fromEmail: string,
    fromName: Option<string>,
    to: seq<Recipient>,
    headers: map<string, string>,
    tags: seq<string>,
    inlineCss: Option<string>,
    attachments: Option<seq<FileEntry>>,
    images: Option<seq<FileEntry>>,
    autoText: Option<bool>,
    googleAnalyticsDomains: Option<seq<string>>,
    googleAnalyticsCampaign: Option<string>,
    trackingDomain: Option<string>,
    subaccount: Option<string>)

  /** One record of the provider's answer; its other fields are not read. */
  datatype ApiRecord = ApiRecord(email: string, status: string)

  /** A recipient counts as sent when the provider reports `sent` or `queued`. */
  predicate Delivered(r: ApiRecord)
    ensures Delivered(r) <==> r.status in ["sent", "queued"]
  {
    r.status == "sent" || r.status == "queued"
  }

  /** The number of delivered records. */
  function DeliveredCount(rs: seq<ApiRecord>): (n: nat)
    ensures n <= |rs|
    decreases |rs|
  {
    if rs == [] then 0
    else DeliveredCount(rs[..|rs| - 1]) + (if Delivered(rs[|rs| - 1]) then 1 else 0)
  }

  /** The emails of the records that were not delivered, in answer order. */
  function FailedEmails(rs: seq<ApiRecord>): (failed: seq<string>)
    ensures |failed| <= |rs|
    ensures forall e :: e in failed ==> exists i :: 0 <= i < |rs| && !Delivered(rs[i]) && rs[i].email == e
    decreases |rs|
  {
    if rs == [] then []
    else
      var init := rs[..|rs| - 1];
      assert forall i :: 0 <= i < |init| ==> init[i] == rs[i];
      FailedEmails(init) + (if Delivered(rs[|rs| - 1]) then [] else [rs[|rs| - 1].email])
  }

  /** Every record is either counted or reported as failed, never both. */
  lemma {:induction false} CountPlusFailed(rs: seq<ApiRecord>)
    ensures DeliveredCount(rs) + |FailedEmails(rs)| == |rs|
    decreases |rs|
  {
    if rs != [] {
      CountPlusFailed(rs[..|rs| - 1]);
    }
  }

  /** The count is positive exactly when some record was delivered. */
  lemma {:induction false} CountPositive(rs: seq<ApiRecord>)
    ensures DeliveredCount(rs) > 0 <==> exists i :: 0 <= i < |rs| && Delivered(rs[i])
    decreases |rs|
  {
    if rs != [] {
      var init := rs[..|rs| - 1];
      CountPositive(init);
      if exists i :: 0 <= i < |init| && Delivered(init[i]) {
        var i :| 0 <= i < |init| && Delivered(init[i]);
        assert rs[i] == init[i];
      }
      if exists i :: 0 <= i < |rs| && Delivered(rs[i]) {
        var i :| 0 <= i < |rs| && Delivered(rs[i]);
        if i < |init| {
          assert init[i] == rs[i];
        }
      }
    }
  }

  /** The failed list of a concatenated answer is the concatenation of the failed lists: order is kept. */
  lemma {:induction false} FailedEmailsAppend(rs: seq<ApiRecord>, ss: seq<ApiRecord>)
    ensures FailedEmails(rs + ss) == FailedEmails(rs) + FailedEmails(ss)
    decreases |ss|
  {
    if ss == [] {
      assert rs + ss == rs;
    } else {
      var last := ss[|ss| - 1];
      var ssInit := ss[..|ss| - 1];
      assert (rs + ss)[..|rs + ss| - 1] == rs + ssInit;
      assert (rs + ss)[|rs + ss| - 1] == last;
      FailedEmailsAppend(rs, ssInit);
    }
  }

  /** A single record: a delivered one adds nothing, any other adds its email. */
  lemma FailedEmailsOne(r: ApiRecord)
    ensures FailedEmails([r]) == if Delivered(r) then [] else [r.email]
    ensures DeliveredCount([r]) == if Delivered(r) then 1 else 0
  {
  }

  /** The answer `a@x.com: sent`, `b@x.com: rejected` yields one success and `b@x.com` failed. */
  lemma SentAndRejected()
    ensures var rs := [ApiRecord("a@x.com", "sent"), ApiRecord("b@x.com", "rejected")];
      DeliveredCount(rs) == 1 && FailedEmails(rs) == ["b@x.com"]
  {
  }
}
