/** Message construction of services/mail.py (`_build_message`). The message is
    modelled at the level of the headers and parts the code sets; the list of
    delivery recipients is returned beside it instead of being attached to it. */
module MessageBuilder {
  import opened MailErrors
  import opened Sequences
  import opened Addresses

  /** Attachment content: raw bytes, or a string naming a file to read. */
  datatype Content = Bytes(data: seq<bv8>) | FilePath(path: string)

  datatype Attachment = Attachment(filename: string, content: Content, mime: string)

  /** What reading a whole file gives: its bytes, or the text of the OSError. */
  datatype ReadResult = Read(data: seq<bv8>) | ReadFailed(reason: string)

  type Reader = string -> ReadResult

  datatype Header = Header(name: string, value: string)

  datatype Part =
    | PlainText(body: string)
    | HtmlAlternative(body: string)
    | AttachedFile(filename: string, maintype: string, subtype: string, data: seq<bv8>)

  datatype Message = Message(headers: seq<Header>, parts: seq<Part>)

  /** A built message together with everyone it is to be delivered to. */
  datatype Built = Built(message: Message, recipients: seq<string>)

  /** The caller's arguments; `None` stands for Python's `None`, and an absent
      attachment list is the empty sequence. */
  datatype Request = Request(
    to: Recipients,
    subject: string,
    text: Option<string>,
    html: Option<string>,
    replyTo: Option<string>,
    cc: Option<Recipients>,
    bcc: Option<Recipients>,
    attachments: seq<Attachment>)

  const Separator := ", "
  const DefaultSubtype := "octet-stream"

  /** Python truthiness of an optional string. */
  predicate Truthy(o: Option<string>)
  {
    o.Some? && o.value != ""
  }

  /** `text or ""`. */
  function TextOrEmpty(o: Option<string>): string
  {
    if Truthy(o) then o.value else ""
  }

  /** `cc or []`: an absent list is an empty one. */
  function OrEmpty(o: Option<Recipients>): Recipients
  {
    if o.Some? then o.value else Several([])
  }

  /** The recipient list that `_as_list` and `_normalize_many` make of an argument. */
  function RecipientList(v: Validator, x: Recipients): Result<seq<string>>
  {
    NormalizeMany(v, AsList(x))
  }

  /** A MIME type string split into main type and subtype at its first "/";
      without a "/", the subtype is "octet-stream". */
  function SplitMime(mime: string): (r: (string, string))
    ensures '/' in mime ==> r.0 + "/" + r.1 == mime && '/' !in r.0
    ensures '/' !in mime ==> r == (mime, DefaultSubtype)
  {
    if '/' in mime then
      var i := IndexOf(mime, '/');
      assert mime == mime[..i] + "/" + mime[i + 1..];
      (mime[..i], mime[i + 1..])
    else (mime, DefaultSubtype)
  }

  /** The split is at the first "/": any decomposition whose main type holds no "/" is the one chosen. */
  lemma SplitMimeAtFirstSlash(mime: string, maintype: string, subtype: string)
    requires mime == maintype + "/" + subtype && '/' !in maintype
    ensures SplitMime(mime) == (maintype, subtype)
  {
    var n := |maintype|;
    assert mime[n] == '/';
    assert mime[..n] == maintype;
    var i := IndexOf(mime, '/');
    assert forall j :: 0 <= j < n ==> mime[j] != '/' by {
      assert forall j :: 0 <= j < n ==> mime[j] == maintype[j];
    }
    assert forall j :: 0 <= j < i ==> mime[j] != '/' by {
      assert forall j :: 0 <= j < i ==> mime[j] == mime[..i][j];
    }
    assert i == n;
    assert mime[n + 1..] == subtype;
  }

  lemma SplitMimeExamples()
    ensures SplitMime("a/b/c") == ("a", "b/c")
    ensures SplitMime("pdf") == ("pdf", "octet-stream")
  {
    assert "a/b/c" == "a" + "/" + "b/c";
    SplitMimeAtFirstSlash("a/b/c", "a", "b/c");
    assert "pdf"[0] != '/' && "pdf"[1] != '/' && "pdf"[2] != '/';
  }

  /** One attachment as a part; path content is read at build time. */
  function AttachmentPart(a: Attachment, read: Reader): Result<Part>
  {
    var (maintype, subtype) := SplitMime(a.mime);
    match a.content
    case Bytes(data) => Ok(AttachedFile(a.filename, maintype, subtype, data))
    case FilePath(path) =>
      match read(path)
      case Read(data) => Ok(AttachedFile(a.filename, maintype, subtype, data))
      case ReadFailed(reason) => Err(AttachmentUnreadable(path, reason))
  }

  /** All attachments as parts, in order; the first unreadable file aborts. */
  function AttachmentParts(atts: seq<Attachment>, read: Reader): (r: Result<seq<Part>>)
    ensures r.Ok? ==> |r.value| == |atts| && forall i :: 0 <= i < |atts| ==> r.value[i].AttachedFile?
    ensures r.Err? ==> r.error.AttachmentUnreadable?
  {
    if atts == [] then Ok([])
    else
      var init :- AttachmentParts(atts[..|atts| - 1], read);
      var last :- AttachmentPart(atts[|atts| - 1], read);
      Ok(init + [last])
  }

  /** Once a prefix of the attachments fails, the whole list fails with the same error. */
  lemma {:induction false} AttachmentPartsPrefixError(atts: seq<Attachment>, i: nat, read: Reader)
    requires i <= |atts| && AttachmentParts(atts[..i], read).Err?
    ensures AttachmentParts(atts, read) == AttachmentParts(atts[..i], read)
    decreases |atts| - i
  {
    if i < |atts| {
      var init := atts[..|atts| - 1];
      assert init[..i] == atts[..i];
      AttachmentPartsPrefixError(init, i, read);
    } else {
      assert atts[..i] == atts;
    }
  }

  /** On success, the k-th part is the k-th attachment's part: its file name, split MIME type and bytes. */
  lemma {:induction false} AttachmentPartsPointwise(atts: seq<Attachment>, read: Reader)
    requires AttachmentParts(atts, read).Ok?
    ensures forall k :: 0 <= k < |atts| ==> AttachmentPart(atts[k], read) == Ok(AttachmentParts(atts, read).value[k])
  {
    if atts != [] {
      var init := atts[..|atts| - 1];
      AttachmentPartsPointwise(init, read);
      forall k | 0 <= k < |atts| - 1 ensures atts[k] == init[k] { }
    }
  }

  /** Building fails on attachments only when one of them names a file that cannot be read. */
  lemma {:induction false} AttachmentPartsFailOnlyOnReads(atts: seq<Attachment>, read: Reader)
    requires AttachmentParts(atts, read).Err?
    ensures exists k :: 0 <= k < |atts| && atts[k].content.FilePath? && read(atts[k].content.path).ReadFailed?
  {
    var init := atts[..|atts| - 1];
    if AttachmentParts(init, read).Err? {
      AttachmentPartsFailOnlyOnReads(init, read);
      var k :| 0 <= k < |init| && init[k].content.FilePath? && read(init[k].content.path).ReadFailed?;
      assert atts[k] == init[k];
    } else {
      var k := |atts| - 1;
      assert atts[k].content.FilePath? && read(atts[k].content.path).ReadFailed?;
    }
  }

  /** The normalised addresses of one message. */
  datatype Addressing = Addressing(to: seq<string>, cc: seq<string>, bcc: seq<string>, replyTo: Option<string>)

  /** The address steps of `_build_message`, in the order the code takes them:
      To (and its emptiness check), Cc, Bcc, then Reply-To when truthy. */
  function Address(req: Request, v: Validator): (r: Result<Addressing>)
    ensures r.Ok? ==> r.value.to != [] && (r.value.replyTo.Some? <==> Truthy(req.replyTo))
    ensures r.Err? ==> r.error.InvalidAddress? || r.error.EmptyRecipients?
  {
    var toList :- RecipientList(v, req.to);
    if toList == [] then Err(EmptyRecipients)
    else
      var ccList :- RecipientList(v, OrEmpty(req.cc));
      var bccList :- RecipientList(v, OrEmpty(req.bcc));
      if Truthy(req.replyTo) then
        var replyTo :- NormalizeAddress(v, req.replyTo.value);
        Ok(Addressing(toList, ccList, bccList, Some(replyTo)))
      else Ok(Addressing(toList, ccList, bccList, None))
  }

  /** The headers the code sets, in the order it sets them. */
  function Headers(subject: string, from: string, a: Addressing): seq<Header>
  {
    [Header("Subject", subject), Header("From", from), Header("To", Join(Separator, a.to))]
    + (if a.cc != [] then [Header("Cc", Join(Separator, a.cc))] else [])
    + (if a.replyTo.Some? then [Header("Reply-To", a.replyTo.value)] else [])
  }

  /** The plain part, and an HTML alternative when one is given. */
  function Body(text: Option<string>, html: Option<string>): seq<Part>
  {
    [PlainText(TextOrEmpty(text))] + (if Truthy(html) then [HtmlAlternative(html.value)] else [])
  }

  /** `_build_message`, as a function of its inputs. */
  function Build(req: Request, from: string, v: Validator, read: Reader): (r: Result<Built>)
    ensures r.Ok? ==> |r.value.recipients| > 0 && |r.value.message.parts| == |Body(req.text, req.html)| + |req.attachments|
    ensures r.Err? ==> r.error.InvalidAddress? || r.error.EmptyRecipients? || r.error.AttachmentUnreadable?
  {
    var a :- Address(req, v);
    var attached :- AttachmentParts(req.attachments, read);
    Ok(Built(Message(Headers(req.subject, from, a), Body(req.text, req.html) + attached), a.to + a.cc + a.bcc))
  }

  /** `_build_message` step by step: the addresses are normalised (To first,
      with its emptiness check), the headers are appended as the code sets
      them, then the body, then the attachments. */
  method BuildMessage(req: Request, from: string, v: Validator, read: Reader) returns (r: Result<Built>)
    ensures r == Build(req, from, v, read)
  {
    var a :- Address(req, v);
    var headers := [Header("Subject", req.subject), Header("From", from), Header("To", Join(Separator, a.to))];
    if a.cc != [] {
      headers := headers + [Header("Cc", Join(Separator, a.cc))];
    }
    if a.replyTo.Some? {
      headers := headers + [Header("Reply-To", a.replyTo.value)];
    }
    assert headers == Headers(req.subject, from, a);
    var parts := [PlainText(TextOrEmpty(req.text))];
    if Truthy(req.html) {
      parts := parts + [HtmlAlternative(req.html.value)];
    }
    assert parts == Body(req.text, req.html);
    parts :- AddAttachments(parts, req.attachments, read);
    r := Ok(Built(Message(headers, parts), a.to + a.cc + a.bcc));
  }

  /** The attachment loop of `_build_message`: each attachment's MIME type is
      split, path content is read, and the part is appended. */
  method AddAttachments(parts: seq<Part>, atts: seq<Attachment>, read: Reader) returns (r: Result<seq<Part>>)
    ensures AttachmentParts(atts, read).Ok? ==> r == Ok(parts + AttachmentParts(atts, read).value)
    ensures AttachmentParts(atts, read).Err? ==> r == Err(AttachmentParts(atts, read).error)
  {
    var acc := parts;
    for i := 0 to |atts|
      invariant AttachmentParts(atts[..i], read).Ok?
      invariant acc == parts + AttachmentParts(atts[..i], read).value
    {
      assert atts[..i + 1][..i] == atts[..i];
      var (maintype, subtype) := SplitMime(atts[i].mime);
      var data: seq<bv8>;
      match atts[i].content {
        case Bytes(bytes) =>
          data := bytes;
        case FilePath(path) =>
          var got := read(path);
          if got.ReadFailed? {
            AttachmentPartsPrefixError(atts, i + 1, read);
            return Err(AttachmentUnreadable(path, got.reason));
          }
          data := got.data;
      }
      acc := acc + [AttachedFile(atts[i].filename, maintype, subtype, data)];
    }
    assert atts[..|atts|] == atts;
    r := Ok(acc);
  }

  // ---------------------------------------------------------------------------
  // Properties of message construction

  /** Building fails with the empty-recipients error exactly when the normalised
      To list is empty. */
  lemma BuildEmptyRecipientsIff(req: Request, from: string, v: Validator, read: Reader)
    ensures Build(req, from, v, read) == Err(EmptyRecipients) <==> RecipientList(v, req.to) == Ok([])
  {
  }

  /** The To list is normalised and checked before anything else: while it
      fails or is empty, neither Cc, Bcc, Reply-To, the attachments nor the
      file reader have any influence on the outcome, which is an error. */
  lemma BuildChecksToFirst(req: Request, from: string, v: Validator, read: Reader,
                           cc: Option<Recipients>, bcc: Option<Recipients>, replyTo: Option<string>,
                           atts: seq<Attachment>, read': Reader)
    requires RecipientList(v, req.to).Err? || RecipientList(v, req.to) == Ok([])
    ensures Build(req, from, v, read) == Build(req.(cc := cc, bcc := bcc, replyTo := replyTo, attachments := atts), from, v, read')
    ensures Build(req, from, v, read).Err?
  {
  }

  /** Attachments are looked at only once every address is accepted. */
  lemma BuildAddressesBeforeAttachments(req: Request, from: string, v: Validator, read: Reader)
    requires Address(req, v).Err?
    ensures Build(req, from, v, read) == Err(Address(req, v).error)
    ensures Build(req, from, v, read).error.InvalidAddress? || Build(req, from, v, read).error.EmptyRecipients?
  {
  }

  /** The delivery list is To, then Cc, then Bcc, each normalised, nothing dropped or merged. */
  lemma BuildRecipients(req: Request, from: string, v: Validator, read: Reader)
    requires Build(req, from, v, read).Ok?
    ensures RecipientList(v, req.to).Ok? && RecipientList(v, OrEmpty(req.cc)).Ok? && RecipientList(v, OrEmpty(req.bcc)).Ok?
    ensures var to, cc, bcc := RecipientList(v, req.to).value, RecipientList(v, OrEmpty(req.cc)).value, RecipientList(v, OrEmpty(req.bcc)).value;
      var rcpts := Build(req, from, v, read).value.recipients;
      rcpts == to + cc + bcc && |rcpts| == |to| + |cc| + |bcc| && |to| > 0
  {
    var a := Address(req, v).value;
    assert RecipientList(v, req.to) == Ok(a.to);
  }

  function HeaderNames(hs: seq<Header>): (names: seq<string>)
    ensures |names| == |hs| && forall i :: 0 <= i < |hs| ==> names[i] == hs[i].name
  {
    if hs == [] then [] else [hs[0].name] + HeaderNames(hs[1..])
  }

  /** Subject, From and To are always set, Cc only for a non-empty Cc list,
      Reply-To only when a reply address is present; no header is named Bcc. */
  lemma HeadersShape(subject: string, from: string, a: Addressing)
    ensures var hs := Headers(subject, from, a);
      HeaderNames(hs) == ["Subject", "From", "To"] + (if a.cc != [] then ["Cc"] else []) + (if a.replyTo.Some? then ["Reply-To"] else [])
      && hs[0].value == subject && hs[1].value == from && hs[2].value == Join(Separator, a.to)
      && (a.cc != [] ==> hs[3].value == Join(Separator, a.cc))
      && (a.replyTo.Some? ==> hs[|hs| - 1] == Header("Reply-To", a.replyTo.value))
      && "Bcc" !in HeaderNames(hs)
  {
    var hs := Headers(subject, from, a);
    var expected := ["Subject", "From", "To"] + (if a.cc != [] then ["Cc"] else []) + (if a.replyTo.Some? then ["Reply-To"] else []);
    assert |HeaderNames(hs)| == |expected|;
    forall i | 0 <= i < |expected| ensures HeaderNames(hs)[i] == expected[i] {
    }
  }

  /** The headers of a built message, in terms of the caller's arguments. */
  lemma BuildHeaders(req: Request, from: string, v: Validator, read: Reader)
    requires Build(req, from, v, read).Ok?
    ensures var hs, cc := Build(req, from, v, read).value.message.headers, RecipientList(v, OrEmpty(req.cc)).value;
      HeaderNames(hs) == ["Subject", "From", "To"] + (if cc != [] then ["Cc"] else []) + (if Truthy(req.replyTo) then ["Reply-To"] else [])
      && hs[0].value == req.subject && hs[1].value == from
      && hs[2].value == Join(Separator, RecipientList(v, req.to).value)
      && (cc != [] ==> hs[3].value == Join(Separator, cc))
      && (Truthy(req.replyTo) ==>
            NormalizeAddress(v, req.replyTo.value).Ok?
            && hs[|hs| - 1] == Header("Reply-To", NormalizeAddress(v, req.replyTo.value).value))
      && "Bcc" !in HeaderNames(hs)
  {
    var a := Address(req, v).value;
    HeadersShape(req.subject, from, a);
  }

  /** Bcc is concealed: whatever the Bcc argument, the message itself (every
      header and every part) is the same; only the delivery list differs. */
  lemma BuildConcealsBcc(req: Request, from: string, v: Validator, read: Reader, bcc: Option<Recipients>)
    requires Address(req, v).Ok? && Address(req.(bcc := bcc), v).Ok? && AttachmentParts(req.attachments, read).Ok?
    ensures Build(req, from, v, read).Ok? && Build(req.(bcc := bcc), from, v, read).Ok?
    ensures Build(req.(bcc := bcc), from, v, read).value.message == Build(req, from, v, read).value.message
  {
    var req' := req.(bcc := bcc);
    AddressIgnoresBcc(req, v, bcc);
    var a, a' := Address(req, v).value, Address(req', v).value;
    assert Headers(req'.subject, from, a') == Headers(req.subject, from, a);
    assert AttachmentParts(req'.attachments, read) == AttachmentParts(req.attachments, read);
  }

  lemma AddressIgnoresBcc(req: Request, v: Validator, bcc: Option<Recipients>)
    requires Address(req, v).Ok? && Address(req.(bcc := bcc), v).Ok?
    ensures Address(req.(bcc := bcc), v).value == Address(req, v).value.(bcc := Address(req.(bcc := bcc), v).value.bcc)
  {
    var req' := req.(bcc := bcc);
    assert req'.to == req.to && req'.cc == req.cc && req'.replyTo == req.replyTo;
  }

  predicate IsHtml(p: Part)
  {
    p.HtmlAlternative?
  }

  /** The body: the plain part first, then exactly one HTML alternative when
      `html` is truthy and none otherwise. */
  lemma BodyShape(text: Option<string>, html: Option<string>)
    ensures var b := Body(text, html);
      |b| == (if Truthy(html) then 2 else 1)
      && b[0] == PlainText(TextOrEmpty(text))
      && (Truthy(html) ==> b[1] == HtmlAlternative(html.value))
      && |Filter(b, IsHtml)| == |b| - 1
  {
    var b := Body(text, html);
    if Truthy(html) {
      assert b == [b[0]] + [b[1]];
      FilterAppend([b[0]], [b[1]], IsHtml);
    }
  }

  lemma {:induction false} NoHtmlAmongAttachments(parts: seq<Part>)
    requires forall i :: 0 <= i < |parts| ==> parts[i].AttachedFile?
    ensures Filter(parts, IsHtml) == []
  {
    if parts != [] {
      NoHtmlAmongAttachments(parts[1..]);
    }
  }

  /** The parts of a message: `text or ""` first, exactly one HTML alternative
      exactly when `html` is truthy, then one part per attachment, in order. */
  lemma PartsShape(text: Option<string>, html: Option<string>, atts: seq<Attachment>, read: Reader)
    requires AttachmentParts(atts, read).Ok?
    ensures var parts := Body(text, html) + AttachmentParts(atts, read).value;
      var n := if Truthy(html) then 2 else 1;
      |parts| == n + |atts|
      && parts[0] == PlainText(TextOrEmpty(text))
      && (Truthy(html) ==> parts[1] == HtmlAlternative(html.value))
      && |Filter(parts, IsHtml)| == n - 1
      && forall k :: 0 <= k < |atts| ==> AttachmentPart(atts[k], read) == Ok(parts[n + k])
  {
    var body := Body(text, html);
    var attached := AttachmentParts(atts, read).value;
    BodyShape(text, html);
    AttachmentPartsPointwise(atts, read);
    NoHtmlAmongAttachments(attached);
    FilterAppend(body, attached, IsHtml);
  }

  /** The parts of a built message, in terms of the caller's arguments. */
  lemma BuildBody(req: Request, from: string, v: Validator, read: Reader)
    requires Build(req, from, v, read).Ok?
    ensures var parts := Build(req, from, v, read).value.message.parts;
      var n := if Truthy(req.html) then 2 else 1;
      |parts| == n + |req.attachments|
      && parts[0] == PlainText(TextOrEmpty(req.text))
      && (Truthy(req.html) ==> parts[1] == HtmlAlternative(req.html.value))
      && |Filter(parts, IsHtml)| == n - 1
      && forall k :: 0 <= k < |req.attachments| ==> AttachmentPart(req.attachments[k], read) == Ok(parts[n + k])
  {
    PartsShape(req.text, req.html, req.attachments, read);
  }

  /** Without a validator no address is rejected: only an empty To list or an
      unreadable file can make building fail. */
  lemma BuildWithoutValidator(req: Request, from: string, read: Reader)
    requires Build(req, from, Unavailable, read).Err?
    ensures Build(req, from, Unavailable, read).error.EmptyRecipients?
      || Build(req, from, Unavailable, read).error.AttachmentUnreadable?
  {
  }
}
