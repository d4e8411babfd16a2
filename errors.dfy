/** Error values of the mail service and the text each one shows to a caller.
    services/mail.py raises these as exceptions; here they are values carried
    by `Result`, and `Describe` plays the part of `str(e)`. */
module MailErrors {

  datatype Option<+T> = None | Some(value: T)

  /** The exception classes one SMTP attempt can end with. */
  datatype ExceptionKind =
    | ServerDisconnected  // smtplib.SMTPServerDisconnected
    | ConnectError        // smtplib.SMTPConnectError
    | Timeout             // TimeoutError
    | OtherError          // anything else: authentication, refused recipients, TLS, other OSError

  /** Only these three exception classes are retried by the delivery loop. */
  predicate IsTransient(kind: ExceptionKind): (b: bool)
    ensures b <==> !kind.OtherError?
  {
    kind.ServerDisconnected? || kind.ConnectError? || kind.Timeout?
  }

  datatype MailError =
    | InvalidAddress(address: string, reason: string)
    | EmptyRecipients
    | MissingSender
    | AttachmentUnreadable(path: string, reason: string)
    | TransportFailure(kind: ExceptionKind, detail: string)

  /** A failure-compatible result, so that `:-` propagates the first error. */
  datatype Result<+T> = Ok(value: T) | Err(error: MailError) {
    predicate IsFailure() { Err? }

    function PropagateFailure<U>(): Result<U>
      requires Err?
    {
      Err(error)
    }

    function Extract(): T
      requires Ok?
    {
      value
    }
  }

  const InvalidAddressPrefix := "Некорректный email '"

  /** The message text of each error, as `str(e)` renders the exception raised for it. */
  function Describe(e: MailError): (m: string)
    ensures e.InvalidAddress? ==>
      var n := |InvalidAddressPrefix|;
      |m| >= n + |e.address| && m[..n] == InvalidAddressPrefix && m[n..n + |e.address|] == e.address
    ensures e.EmptyRecipients? || e.MissingSender? ==> |m| > 0 && !(InvalidAddressPrefix <= m)
  {
    match e
    case InvalidAddress(address, reason) => InvalidAddressPrefix + address + "': " + reason
    case EmptyRecipients =>
      var m := "Пустой список получателей (to).";
      assert m[0] != InvalidAddressPrefix[0];
      m
    case MissingSender =>
      var m := "FROM_EMAIL/ADMIN_EMAIL не указан в .env";
      assert m[0] != InvalidAddressPrefix[0];
      m
    case AttachmentUnreadable(_, reason) => reason
    case TransportFailure(_, detail) => detail
  }

  ghost predicate OccursAt(s: string, part: string, i: int)
  {
    0 <= i <= |s| - |part| && s[i..i + |part|] == part
  }

  ghost predicate Contains(s: string, part: string)
  {
    exists i :: OccursAt(s, part, i)
  }

  /** A rejected address is named, verbatim, in the message the caller sees. */
  lemma InvalidAddressMessageNamesAddress(address: string, reason: string)
    ensures Contains(Describe(InvalidAddress(address, reason)), address)
  {
    var s := Describe(InvalidAddress(address, reason));
    var i := |InvalidAddressPrefix|;
    assert s[i..i + |address|] == address;
    assert OccursAt(s, address, i);
  }
}
