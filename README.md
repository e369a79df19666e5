# Mandrill transport for SwiftMailer, modelled in Dafny

This project models `MandrillTransport`, the SwiftMailer transport that sends a
message through the Mandrill `messages/send` API. It has two parts.

- **The payload mapper** (`getMandrillMessage`). It resolves the body's content type, decides
  which body becomes `html` and which becomes `text`, flattens to/cc/bcc into
  one role-tagged `to` list, folds reply-to into a `Reply-To` header, sorts
  child entities into images, attachments and alternative bodies, turns the
  `X-MC-*` header vocabulary into Mandrill features, passes other `X-` headers
  through, and attaches the sub-account.
- **`send`**. It handles the pre-send veto and the API-key check. It then reduces the
  provider's per-recipient answer to a count of sent or queued recipients, plus
  the failed addresses appended to the caller's list. Finally it sets the event result.

Modules:

- `Wrappers` (`wrappers.dfy`): `Option` for PHP null, `Result` for exceptions.
- `Strings` (`strings.dfy`): PHP string truthiness, the `strncmp` prefix test, `explode`/`implode`.
- `Base64` (`base64.dfy`): base 64 as in section 4 of RFC 4648, with its decoder and the round trip.
- `Mail` (`mail.dfy`): the message as the transport reads it.
- `MandrillApi` (`mandrill_api.dfy`): the request payload, the answer records and their tally.
- `Mapper` (`mapper.dfy`): what `getMandrillMessage` computes, as functions.
- `MapperProperties` (`mapper_properties.dfy`): the properties of that payload.
- `Transport` (`transport.dfy`): the class `MandrillTransport`. It holds the
  configuration fields, the setters and `CreateMandrill`. `GetMandrillMessage`
  and the loop methods it calls are imperative, and each is proved equal to its `Mapper` function.
  `Send` works step by step and is proved against `DeliveredCount`/`FailedEmails`.

Modelling choices:

- Address lists are ordered sequences of (email, name). A name is `None` where PHP has null.
- A child entity is a tagged variant: `Image`, `Attachment` (any non-image
  `Swift_Attachment`), `MimePart`, or `OtherEntity` (any other MIME entity, which is ignored).
- The hidden `userContentType` property is an explicit optional field. When the field is
  absent, the declared type is kept.
- The from list must be non-empty. The code reads its first entry without checking.
- PHP truthiness (`null`, `""` and `"0"` are false) decides both whether a
  reply-to name is used and whether the sub-account is attached.
- The usual display form of an address is `name <email>`. The code writes the
  Reply-To value as `email <name>` (line 339), and the model follows the code.
- The code does not reject an empty from list. It reads `$fromEmails[0]`
  (lines 397-398), so the model requires a non-empty from list.
- The Mandrill client, the HTTP call and the event dispatcher are inputs to `Send`:
  - the provider's answer is the `response` sequence;
  - whether an event was created is `hasEvent`;
  - whether a listener cancelled it is `cancelled`.

  `Send` returns both the request it would hand to the client and the result it would record on the event.

## Model

| member | source | states |
|---|---|---|
| Mapper.SupportedContentTypes | SwiftMailer/MandrillTransport.php:262-268 | exactly the two body types `text/plain` and `text/html` are supported |
| Mapper.SupportsContentType | SwiftMailer/MandrillTransport.php:274-277 | a content type is supported exactly when it equals `text/plain` or `text/html` |
| Mapper.PrimaryContentType | SwiftMailer/MandrillTransport.php:283-302 | a supported declared type is used as is; otherwise the construction-time type when recorded; otherwise the declared type |
| Mapper.InitialBodies | SwiftMailer/MandrillTransport.php:361-369 | the body is `text` (and `html` null) exactly for `text/plain`; for every other type, supported or not, it is `html` (and `text` null) |
| Mapper.Tagged | SwiftMailer/MandrillTransport.php:329-359 | one address group becomes a recipient list of the same length, with entry i carrying address i's email and name and the group's role |
| Mapper.Recipients | SwiftMailer/MandrillTransport.php:329-359 | the `to` list has \|to\|+\|cc\|+\|bcc\| entries; an entry's `type` is `to` exactly in the first block, `cc` exactly in the second, `bcc` exactly in the third |
| Mapper.FormatReplyTo | SwiftMailer/MandrillTransport.php:338-342 | a Reply-To value starts with the email; it is the bare email unless the name is truthy, and then continues with ` <name>` |
| Mapper.ReplyToHeaders | SwiftMailer/MandrillTransport.php:337-343 | a `Reply-To` header is set exactly when the reply-to list is non-empty, and no other key |
| Mapper.ImageEntries | SwiftMailer/MandrillTransport.php:371-377 | there are never more image entries than children |
| Mapper.AttachmentEntries | SwiftMailer/MandrillTransport.php:378-383 | there are never more attachment entries than children |
| Mapper.AlternativeBody | SwiftMailer/MandrillTransport.php:384-390 | a body is either the one set before the children or the body of some alternative part of its own supported type |
| Mapper.NonEmpty | SwiftMailer/MandrillTransport.php:405-411 | the `attachments`/`images` key is present exactly for a non-empty list, holding that list |
| Mapper.IsFeatureHeader | SwiftMailer/MandrillTransport.php:415-450 | every header name with a Mandrill feature of its own lies in the `X-MC-` namespace |
| Mapper.IsPassthrough | SwiftMailer/MandrillTransport.php:415-456 | a pass-through name has no feature of its own. An `X-` name passes through exactly when it has no feature, and `Reply-To` never passes through |
| Mapper.AutotextFlag | SwiftMailer/MandrillTransport.php:430-438 | `auto_text` is true exactly for `true`/`on`/`yes`/`y`, false exactly for `false`/`off`/`no`/`n`, and unset for any other value |
| Mapper.ApplyHeader | SwiftMailer/MandrillTransport.php:413-459 | a non-text header, or one that is neither a feature header nor a pass-through name, leaves the payload unchanged |
| Mapper.Translate | SwiftMailer/MandrillTransport.php:413-459 | the header loop never removes a `headers` key, and every key it adds is a pass-through name |
| Mapper.BasePayload | SwiftMailer/MandrillTransport.php:393-411 | before the headers are read, `headers` holds at most `Reply-To`; tags are empty, `inline_css` is null, and no feature or sub-account key is set; a present `images`/`attachments` list is non-empty |
| Mapper.MandrillMessage | SwiftMailer/MandrillTransport.php:311-466 | the payload takes its subject from the message and its sender from the first from entry. Its `to` list is the flattened recipients, and every `headers` key is `Reply-To` or a pass-through name |
| Mapper.WithSubAccount | SwiftMailer/MandrillTransport.php:461-463 | `subaccount` is set to the configured value exactly when that value is truthy; no other field changes |
| Mapper.TranslateKeeps | SwiftMailer/MandrillTransport.php:413-459 | the header loop changes only `headers`, `tags`, `inline_css`, `auto_text` and the analytics and tracking fields |
| MapperProperties.TranslateSplitFields | SwiftMailer/MandrillTransport.php:423-444 | `tags` and `google_analytics_domains` are the comma-separated pieces of the last text header of their name, and keep their earlier value without one |
| MapperProperties.TranslateVerbatimFields | SwiftMailer/MandrillTransport.php:420-450 | `inline_css`, `google_analytics_campaign` and `tracking_domain` are the last text header of their name, verbatim, and keep their earlier value without one |
| MapperProperties.TranslateAutotext | SwiftMailer/MandrillTransport.php:430-438 | `auto_text` is the flag of the last text `X-MC-Autotext` header with a recognised value; an unrecognised value never clears an earlier flag |
| MapperProperties.TranslateHeaderMap | SwiftMailer/MandrillTransport.php:413-459 | after the header loop, a pass-through name (`List-Unsubscribe`, or an `X-` name without a feature) holds its last text header's value; every other key keeps its earlier presence and value |
| MapperProperties.AlternativeBodyLast | SwiftMailer/MandrillTransport.php:384-390 | the last alternative part of a supported type provides that body (last one wins) |
| MapperProperties.AlternativeBodyNone | SwiftMailer/MandrillTransport.php:384-390 | without an alternative part of a type, the body of that type keeps its earlier value |
| MapperProperties.ImageEntriesAppend | SwiftMailer/MandrillTransport.php:371-377 | image entries follow document order: those of a concatenation are the concatenated entries |
| MapperProperties.AttachmentEntriesAppend | SwiftMailer/MandrillTransport.php:378-383 | attachment entries follow document order: those of a concatenation are the concatenated entries |
| MapperProperties.EntriesOfOne | SwiftMailer/MandrillTransport.php:371-383 | an image gives one image entry {type, id, base64(body)}; an attachment gives one attachment entry {type, filename, base64(body)}; anything else gives neither |
| MapperProperties.PayloadBase | SwiftMailer/MandrillTransport.php:393-403 | subject, from email and name (first from entry), the bodies, `to`, images and attachments do not depend on the headers |
| MapperProperties.BodyAssignment | SwiftMailer/MandrillTransport.php:361-369 | with no alternative parts, `text` is the body and `html` null exactly when the primary type is `text/plain`, and the other way round otherwise |
| MapperProperties.LastBodyPartWins | SwiftMailer/MandrillTransport.php:384-390 | the last `text/html` part becomes `html` and the last `text/plain` part becomes `text` in the payload |
| MapperProperties.RecipientList | SwiftMailer/MandrillTransport.php:329-359 | `to` has length \|to\|+\|cc\|+\|bcc\|: all to entries, then cc, then bcc, each in order and tagged `to`, `cc`, `bcc` |
| MapperProperties.RecipientsIgnoreReplyTo | SwiftMailer/MandrillTransport.php:337-343 | the reply-to list never affects the `to` list |
| MapperProperties.PayloadHeaders | SwiftMailer/MandrillTransport.php:337-459 | `headers` holds `Reply-To` exactly when the reply-to list is non-empty. Its value comes from the last entry: `email <name>` when the name is truthy, else the bare email. It also holds each pass-through header with the last value of its name, and nothing else |
| MapperProperties.PayloadEntries | SwiftMailer/MandrillTransport.php:405-411 | `images` (`attachments`) is present exactly when some child is an image (a non-image attachment), and then holds the entries in document order |
| MapperProperties.ImageEntriesNonEmpty | SwiftMailer/MandrillTransport.php:371-377 | there are image entries exactly when some child is an image |
| MapperProperties.AttachmentEntriesNonEmpty | SwiftMailer/MandrillTransport.php:378-383 | there are attachment entries exactly when some child is a non-image attachment |
| MapperProperties.PayloadFeatures | SwiftMailer/MandrillTransport.php:413-459 | the payload's tags, `inline_css`, `auto_text`, analytics domains, campaign and tracking domain come from the last header of each name, with defaults `[]` and null/absent |
| MapperProperties.SubAccount | SwiftMailer/MandrillTransport.php:461-463 | `subaccount` is present exactly when the configured sub-account is truthy, and the sub-account changes no other key |
| MapperProperties.TagsExample | SwiftMailer/MandrillTransport.php:423-429 | `X-MC-Tags: a,b,c` yields the tags `a`, `b`, `c` |
| MapperProperties.AutotextExample | SwiftMailer/MandrillTransport.php:430-438 | `yes` sets `auto_text`, `maybe` leaves it unset |
| MapperProperties.PassthroughExample | SwiftMailer/MandrillTransport.php:451-456 | `X-Custom-Foo` passes through; `Reply-To` and `X-MC-Tags` do not |
| Strings.Split | SwiftMailer/MandrillTransport.php:426 | `explode` gives at least one piece, and no piece contains the separator |
| Strings.JoinSplit | SwiftMailer/MandrillTransport.php:426 | joining the pieces of `explode` with the separator gives back the string |
| Strings.SplitWithoutSeparator | SwiftMailer/MandrillTransport.php:440 | a value without a comma is a single piece |
| Base64.Char | SwiftMailer/MandrillTransport.php:376 | each 6-bit value has its own alphabet character, never the padding character |
| Base64.Encode | SwiftMailer/MandrillTransport.php:376 | the encoding has 4 characters per started group of 3 bytes |
| Base64.DecodeEncode | SwiftMailer/MandrillTransport.php:376-382 | decoding the encoded content gives back the part's bytes |
| MandrillApi.Delivered | SwiftMailer/MandrillTransport.php:219 | a record counts as sent exactly when its status is one of `sent`, `queued` |
| MandrillApi.FailedEmails | SwiftMailer/MandrillTransport.php:221-223 | there are never more failures than records, and every failed email is the email of a record that was neither sent nor queued |
| MandrillApi.DeliveredCount | SwiftMailer/MandrillTransport.php:219-220 | the count of sent or queued records never exceeds the number of records |
| MandrillApi.CountPlusFailed | SwiftMailer/MandrillTransport.php:209-224 | count + number of failed emails = number of response records |
| MandrillApi.CountPositive | SwiftMailer/MandrillTransport.php:238-243 | the count is positive exactly when some record is `sent` or `queued` |
| MandrillApi.FailedEmailsAppend | SwiftMailer/MandrillTransport.php:221-223 | failed emails keep response order |
| MandrillApi.FailedEmailsOne | SwiftMailer/MandrillTransport.php:219-223 | a `sent`/`queued` record counts once and adds no failure; any other status adds its email |
| MandrillApi.SentAndRejected | SwiftMailer/MandrillTransport.php:209-224 | the answer (`a@x.com` sent, `b@x.com` rejected) gives count 1 and failed `[b@x.com]` |
| Transport.AppendRecipients | SwiftMailer/MandrillTransport.php:329-359 | a group loop appends exactly that group's tagged recipients to the list |
| Transport.ReplyToHeader | SwiftMailer/MandrillTransport.php:337-343 | the reply-to loop leaves exactly the headers of `ReplyToHeaders` (the last entry wins) |
| Transport.ClassifyChildren | SwiftMailer/MandrillTransport.php:371-391 | the child loop yields the image and attachment entries in document order, and the bodies replaced by the last alternative part of each type |
| Transport.TranslateHeaders | SwiftMailer/MandrillTransport.php:413-459 | the header loop yields `Translate` of its headers in stored order |
| Transport.MandrillTransport.constructor | SwiftMailer/MandrillTransport.php:52-58 | API key, async flag, sub-account and last answer start out null |
| Transport.MandrillTransport.SetApiKey | SwiftMailer/MandrillTransport.php:93-97 | sets the API key and nothing else |
| Transport.MandrillTransport.SetAsync | SwiftMailer/MandrillTransport.php:111-115 | sets the async flag and nothing else |
| Transport.MandrillTransport.SetSubAccount | SwiftMailer/MandrillTransport.php:141-145 | sets the sub-account and nothing else |
| Transport.MandrillTransport.CreateMandrill | SwiftMailer/MandrillTransport.php:159-165 | a null API key is an error; otherwise the client is built with the key |
| Transport.MandrillTransport.GetMandrillMessage | SwiftMailer/MandrillTransport.php:311-466 | the payload built step by step equals `MandrillMessage` of the message and the configured sub-account |
| Transport.MandrillTransport.Send | SwiftMailer/MandrillTransport.php:172-249 | a cancelled event yields 0 with no request and no result. A null key after mapping is an error with no request. Otherwise the request carries the mapped payload and the async flag, the return is the count of sent/queued records, the failures are appended in order, the last answer is kept, and the event result is success exactly when the count is positive |

## Left out

- The Mandrill client and its HTTP call are left out; the provider's answer is the `response` input of `Send`. Errors raised by the client are not modelled.
- The event dispatcher is left out. It appears as two inputs (an event exists; a listener cancelled it) and the recorded result. `registerPlugin` is left out for the same reason.
- The PSR logger calls are diagnostics only and are left out, as are `setLogger` and `getLogger`. Lines 187 and 210 call the logger without a null check, so a missing logger is a crash there; the model does not reproduce that crash.
- `isStarted`, `start`, `stop` and `ping` are documented as unused and are left out.
- The getters (`getApiKey`, `getAsync`, `getSubAccount`, `getResultApi`) are the class fields read directly. The setters' fluent `return $this` is not modelled.
- Reflection on `userContentType` is replaced by an optional field. A property that exists but holds null is not distinguished from a declared unsupported type; both lead to an `html` body, as in the code.
- The payload's `headers` field is a Dafny `map`, so the insertion order of the PHP `headers` array is not modelled.
- Mapper.ApplyHeader: header values are strings, as the values of text headers are. So the `is_array` branch of `X-MC-Tags` and the boolean `true`/`false` values of `X-MC-Autotext` are not modelled.
- Other PHP loose-typing corners (numeric-string array keys, `==` between numeric strings) are not modelled. None of the compared names or content types is numeric.
- `base64_encode` is modelled for byte content; the bodies of images and attachments are byte sequences. Alternative bodies are strings.
