# Outbound mail service: a verified Dafny model

This project models the core of `services/mail.py`, a helper that sends one
email over SMTP. The model covers three parts:

- **Recipient lists.** `_as_list` turns a single address or a list/tuple/set
  into a list and drops blank entries. `_normalize_address` and
  `_normalize_many` pass each entry through the `email_validator` package.
  When that package cannot be imported, they leave the address unchanged.
- **Message construction.** `_build_message` sets the headers (Subject,
  From, To, Cc only when non-empty, Reply-To only when given). It adds the
  plain body and an optional HTML alternative. Then it adds the attachments:
  each MIME type string is split at its first `/`, and string content is
  read as a file path. It also computes the delivery list `to + cc + bcc`.
  The model returns that list beside the message (`Built`) instead of
  attaching it as `_all_rcpt`.
- **Delivery.** `_send` returns at once on a dry run. Otherwise it runs a
  retry loop with an attempt counter and a doubling delay, starting at 1.5
  seconds. Only `SMTPServerDisconnected`, `SMTPConnectError` and
  `TimeoutError` are retried, and only while `attempt <= retries`. Any
  other exception ends the loop at once. `send_mail_ex` turns every failure
  into `(False, message)`, and `send_mail` keeps only the flag.

The validator, the file system and the SMTP session are parameters:

- `Validator`: either `Unavailable`, or a function that gives the canonical
  form of an address or a rejection text.
- `Reader`: reading a whole file gives its bytes or an error text.
- `Transport`: gives the outcome of the n-th connection attempt (`Accepted`,
  or an exception of a given kind).

The number of connections and the delays slept are recorded as ghost
outputs. Delays are in tenths of a second (15, 30, 60, …).

Files:

- `errors.dfy`: errors and their messages.
- `sequences.dfy`: filter, join and index helpers.
- `addresses.dfy`: recipient lists.
- `builder.dfy`: message construction.
- `delivery.dfy`: the retry loop.
- `service.dfy`: the public entry points.

What `services/mail.py` does not do:

- Transport security: the code only ever opens an implicit-TLS
  `SMTP_SSL` connection. It has no STARTTLS variant and no port-587 rule.
- Address encoding: the code does not IDNA-encode domains. A normalised
  address is exactly what the validator returns.
- Empty recipients: the check is on the To list alone, not on the union
  of To, Cc and Bcc. Cc or Bcc addresses cannot replace an empty To list.
- Retried errors: only the three exception classes above are retried. A
  refused connection is a plain `OSError`, as are TLS errors. Neither is
  retried.
- Backoff: the initial delay is fixed at 1.5 seconds. It is not taken
  from the configuration.

## Model

| member | source | states |
|---|---|---|
| `MailErrors.InvalidAddressMessageNamesAddress` | services/mail.py:64-65 | the message of a rejected address contains that address verbatim |
| `MailErrors.Describe` | services/mail.py:64-65 | the text of a rejected address is the fixed prefix followed by the address verbatim; the empty-recipients (line 91) and missing-sender (line 197) texts are non-empty and do not start with that prefix, so a caller can tell them apart |
| `MailErrors.IsTransient` | services/mail.py:144 | exactly the three exception classes server-disconnected, connect error and timeout are retried; every other exception is not |
| `Addresses.IsWhitespace` | services/mail.py:53-54 | the characters `str.strip()` removes: space, tab, line feed, carriage return, no-break space and ideographic space are whitespace; letters, digits, `@`, `.`, `<`, `>`, zero-width space and the byte-order mark are not |
| `Addresses.AsList` | services/mail.py:51-54 | every returned entry is non-blank; a single value gives `[x]` if non-blank and `[]` otherwise; a collection gives at most its own entries |
| `Addresses.AsListEntryByEntry` | services/mail.py:52-54 | a collection is filtered entry by entry, in order: the result for `a + b` is the result for `a` followed by the result for `b`; a one-entry collection gives what the single value would |
| `Addresses.AsListMultiplicity` | services/mail.py:53 | every non-blank entry is kept as often as it occurs, and every blank one is dropped |
| `Addresses.NormalizeAddress` | services/mail.py:57-66 | `""` comes back unchanged; without a validator the address comes back unchanged; it fails exactly when the validator rejects a non-empty address, with an error carrying that address and the reason; otherwise it returns the canonical form |
| `Addresses.NormalizeMany` | services/mail.py:69-70 | on success there is one output per non-empty input; every error is an invalid-address error; without a validator the result is the input without its empty entries |
| `Addresses.NormalizeManyPointwise` | services/mail.py:69-70 | on success the k-th output is the k-th non-empty input, normalised (order kept, no deduplication) |
| `Addresses.NormalizeManySkipsEmpty` | services/mail.py:70 | empty entries have no influence: the result equals that for the list without them |
| `Addresses.NormalizeManyFirstRejection` | services/mail.py:69-70 | the list fails if and only if some non-empty entry is rejected, and then with the rejection of the first such entry |
| `Addresses.FirstRejection` | services/mail.py:69-70 | the same, for a list with no empty entries |
| `Addresses.NormalizeManyWithoutValidator` | services/mail.py:28-31 | without the validator package, a list with no empty entries is returned unchanged |
| `MessageBuilder.SplitMime` | services/mail.py:112 | with a `/`, main type + "/" + subtype is the MIME string and the main type holds no `/`; without one, the result is `(mime, "octet-stream")` |
| `MessageBuilder.SplitMimeAtFirstSlash` | services/mail.py:112 | the split is at the first `/`: any decomposition whose main type holds no `/` is the one returned |
| `MessageBuilder.SplitMimeExamples` | services/mail.py:112 | `"a/b/c"` gives `("a", "b/c")` and `"pdf"` gives `("pdf", "octet-stream")` |
| `MessageBuilder.AttachmentParts` | services/mail.py:110-118 | on success there is one attached-file part per attachment; the only error is an unreadable file |
| `MessageBuilder.AttachmentPartsPrefixError` | services/mail.py:111-118 | once an attachment fails, the whole list fails with that error |
| `MessageBuilder.AttachmentPartsPointwise` | services/mail.py:111-118 | on success the k-th part is the k-th attachment's file name, split MIME type and bytes |
| `MessageBuilder.AttachmentPartsFailOnlyOnReads` | services/mail.py:113-115 | attachments fail only when one of them names a path that cannot be read |
| `MessageBuilder.Address` | services/mail.py:89-100 | the address steps in the code's order (To, its emptiness check, Cc, Bcc, then Reply-To): on success To is non-empty and a reply address is present exactly when `reply_to` is truthy; the only errors are an invalid address and an empty To list |
| `MessageBuilder.Build` | services/mail.py:73-123 | `_build_message` as a function: on success the delivery list is non-empty and there is one part per attachment beyond the body parts; the only errors are an invalid address, an empty To list and an unreadable file |
| `MessageBuilder.BuildMessage` | services/mail.py:73-123 | the construction that normalises the addresses, appends the headers one by one, then the body, then the attachments returns exactly `Build` of its inputs |
| `MessageBuilder.AddAttachments` | services/mail.py:110-118 | the attachment loop appends the parts of all attachments to the body, or fails with the first unreadable file's error |
| `MessageBuilder.BuildEmptyRecipientsIff` | services/mail.py:89-91 | construction fails with the empty-recipients error if and only if the normalised To list is empty |
| `MessageBuilder.BuildChecksToFirst` | services/mail.py:89-94 | while the To list fails or is empty, the result is an error and does not depend on Cc, Bcc, Reply-To, the attachments or the file reader |
| `MessageBuilder.BuildAddressesBeforeAttachments` | services/mail.py:89-118 | an address error is reported before any attachment is looked at |
| `MessageBuilder.BuildRecipients` | services/mail.py:122 | the delivery list is the normalised To + Cc + Bcc, its length is the sum of theirs, and To is non-empty |
| `MessageBuilder.HeadersShape` | services/mail.py:86-100 | the header names are Subject, From, To, then Cc when the Cc list is non-empty, then Reply-To when given; their values are the subject, the sender, the joined lists and, last, the reply address; there is no Bcc header |
| `MessageBuilder.BuildHeaders` | services/mail.py:86-100 | the same, for a built message, in terms of the caller's arguments: Reply-To is present exactly when `reply_to` is truthy, and then it is the last header and holds `_normalize_address(reply_to)` |
| `MessageBuilder.BuildConcealsBcc` | services/mail.py:94-100 | when every address and attachment step succeeds for both Bcc arguments, both builds succeed and changing the Bcc argument changes nothing in the message (headers or parts): Bcc addresses reach only the delivery list (a rejected Bcc address still ends construction with an error that names it) |
| `MessageBuilder.AddressIgnoresBcc` | services/mail.py:89-100 | the To, Cc and Reply-To addresses do not depend on the Bcc argument |
| `MessageBuilder.BodyShape` | services/mail.py:103-107 | the body is the plain part `text or ""`, followed by exactly one HTML alternative exactly when `html` is truthy |
| `MessageBuilder.PartsShape` | services/mail.py:103-118 | the parts are the plain text, then the HTML alternative if `html` is truthy, then one part per attachment in order; exactly one or zero HTML parts |
| `MessageBuilder.NoHtmlAmongAttachments` | services/mail.py:118 | attachment parts are never HTML alternatives |
| `MessageBuilder.BuildBody` | services/mail.py:103-118 | the same, for a built message, in terms of the caller's arguments |
| `MessageBuilder.BuildWithoutValidator` | services/mail.py:28-31 | without the validator package, construction can fail only on an empty To list or an unreadable file |
| `Delivery.Backoff` | services/mail.py:135 | the first delay is 1.5 s and each later delay is twice the one before |
| `Delivery.FinalAttempt` | services/mail.py:136-150 | the last attempt comes after transient failures only, and it is either not transient or the one that exhausts the retry budget |
| `Delivery.Budget` | services/mail.py:146 | the number of retries `attempt > retries` allows: the least non-negative count not below `retries`, so zero when `retries` is negative |
| `Delivery.Deliver` | services/mail.py:126-153 | outside a dry run, between 1 and `max(retries, 0) + 1` connections are made, with one sleep fewer than connections; every failure is a transport failure |
| `Delivery.Send` | services/mail.py:126-153 | the loop's result, connection count and sleeps are exactly `Deliver` of the configuration and transport |
| `Delivery.DryRunNeverConnects` | services/mail.py:129-131 | a dry run succeeds with no connection and no sleep |
| `Delivery.BackoffDoubles` | services/mail.py:135-150 | the n-th delay is 1.5 s doubled n times, and the delays strictly increase |
| `Delivery.Pow2Increasing` | services/mail.py:150 | doubling more often gives a strictly larger delay |
| `Delivery.PersistentTransientFailure` | services/mail.py:144-147 | if each of the first `max(retries, 0) + 1` attempts fails transiently, whatever later attempts would do, exactly `max(retries, 0) + 1` connections are made, with `max(retries, 0)` doubling sleeps, and the last error is reported |
| `Delivery.FatalErrorEndsDelivery` | services/mail.py:151-153 | after k transient failures within the budget, a non-transient error ends delivery: k + 1 connections, k sleeps, that error reported |
| `Delivery.FinalAttemptIsFirstStop` | services/mail.py:136-153 | the last attempt is the first attempt that is not a transient failure |
| `Delivery.FatalFirstAttempt` | services/mail.py:151-153 | a non-transient error on the first attempt means one connection, no sleep and that error |
| `Delivery.DeliverySucceedsIff` | services/mail.py:129-153 | delivery succeeds if and only if it is a dry run, or some attempt within the budget is accepted after nothing but transient failures |
| `Delivery.NoRetryBudget` | services/mail.py:145-147 | with `retries` zero or negative there is one connection and no sleep |
| `MailService.Dispatch` | services/mail.py:194-204 | the flow of `send_mail_ex`: at most `max(retries, 0) + 1` connections; none on a dry run; one sleep fewer than connections whenever there is a connection; a transport failure only after a connection |
| `MailService.SendMailEx` | services/mail.py:178-207 | it always returns; `ok` holds exactly when there is no error text; the pair is `(True, None)` on success and `(False, str(e))` otherwise, as `Dispatch` decides; connections and sleeps are those of `Dispatch` |
| `MailService.SendMail` | services/mail.py:156-175 | the flag is true exactly when the send succeeds |
| `MailService.MissingSenderFailsFirst` | services/mail.py:196-197 | an empty sender fails with the missing-sender error, no connection and no sleep, whatever the message, validator, files or transport |
| `MailService.ConstructionErrorsPrecedeDelivery` | services/mail.py:194-204 | an error that is not a transport failure comes with no connection and no sleep |
| `MailService.DryRunSucceedsIffBuildable` | services/mail.py:129-131 | a dry run opens no connection and succeeds exactly when the sender is set and accepted and the message can be built |
| `MailService.FailureMessages` | services/mail.py:195-207 | a rejected address is named in the returned text; an empty To list and an empty sender return the code's fixed messages |

## Left out

- SMTP and TLS I/O (`SMTP_SSL`, `ssl.create_default_context`, `login`,
  `send_message`) are foreign network calls. The injected `Transport`
  stands for them. It sees the message, the recipients and whether login
  happens (both user and password non-empty). Host, port and timeout only
  reach the transport, so they play no part in the model.
- The `email_validator` package is a foreign library and is modelled as
  the `Validator` function. The model assumes it raises only
  `EmailNotValidError`; any other exception it raises is not modelled.
- `EmailMessage` rendering is library code and is not modelled: encoded
  words for non-ASCII subjects, multipart serialisation, charsets, the
  library's refusal of header values with line breaks, and the checks
  `add_attachment` makes on its own. The message is modelled only as the
  headers and parts the code sets.
- Reading attachment files is file I/O. The `Reader` parameter stands for
  it.
- `time.sleep` and the float delay are modelled as integer tenths of a
  second. The model records the delays but does not sleep.
- Loading `SMTPConfig` defaults from the environment is configuration
  code. It is the `defaults` parameter of `MailService.SendMailEx`.
- All `logger` calls are left out. They do not affect results.
- The three command-line scripts under `scripts/` and `services/scripts/`
  only read `.env`, call `send_mail_ex` and print the result.
- `str()` of non-string recipient entries and the iteration order of a
  Python `set` are taken as given. A recipient collection is the sequence
  of its entries' string forms.
- Any other `to` argument (`None`, a generator, a `frozenset`) is a single
  value given by its `str()` form, as `_as_list` treats it.
- A `cc` or `bcc` argument is first replaced by `[]` when it is falsy
  (`cc or []`). The model represents every falsy `cc` or `bcc` (`None`,
  `""`, an empty `frozenset` or `dict`, `0`) by `None`. A truthy argument
  that is not a list, tuple or set is a single value given by its `str()`
  form.
