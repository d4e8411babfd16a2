/** The public entry points of services/mail.py: `send_mail_ex`, which turns
    every failure into `(False, message)`, and `send_mail`, which keeps only
    the flag. */
module MailService {
  import opened MailErrors
  import opened Addresses
  import opened MessageBuilder
  import opened Delivery

  /** `cfg or SMTPConfig()`: `defaults` is the configuration read from the environment. */
  function Resolve(cfg: Option<Config>, defaults: Config): Config
  {
    if cfg.Some? then cfg.value else defaults
  }

  /** The whole call as a function: the sender check, the sender's
      normalisation, construction, then delivery. */
  function Dispatch(req: Request, cfg: Config, v: Validator, read: Reader, t: Transport): (rep: Report)
    ensures rep.connections <= Budget(cfg) + 1
    ensures cfg.dryRun ==> rep.connections == 0 && rep.sleeps == []
    ensures rep.connections > 0 ==> |rep.sleeps| == rep.connections - 1
    ensures rep.result.Err? && rep.result.error.TransportFailure? ==> rep.connections > 0
  {
    if cfg.fromEmail == "" then Report(Err(MissingSender), 0, [])
    else
      match NormalizeAddress(v, cfg.fromEmail)
      case Err(e) => Report(Err(e), 0, [])
      case Ok(from) =>
        match Build(req, from, v, read)
        case Err(e) => Report(Err(e), 0, [])
        case Ok(b) => Deliver(cfg, SubmissionOf(b, cfg), t)
  }

  /** `(True, None)` for a success, `(False, str(e))` for a failure. */
  function AsPair(r: Result<()>): (bool, Option<string>)
  {
    match r
    case Ok(_) => (true, None)
    case Err(e) => (false, Some(Describe(e)))
  }

  /** `send_mail_ex`: never fails; it reports success, or failure with the error's message. */
  method SendMailEx(req: Request, cfg: Option<Config>, defaults: Config, v: Validator, read: Reader, t: Transport)
    returns (ok: bool, error: Option<string>, ghost connections: nat, ghost sleeps: seq<nat>)
    ensures ok <==> error.None?
    ensures var rep := Dispatch(req, Resolve(cfg, defaults), v, read, t);
      (ok, error) == AsPair(rep.result) && connections == rep.connections && sleeps == rep.sleeps
  {
    connections, sleeps := 0, [];
    var c := Resolve(cfg, defaults);
    if c.fromEmail == "" {
      return false, Some(Describe(MissingSender)), connections, sleeps;
    }
    var from := NormalizeAddress(v, c.fromEmail);
    if from.Err? {
      return false, Some(Describe(from.error)), connections, sleeps;
    }
    var built := BuildMessage(req, from.value, v, read);
    if built.Err? {
      return false, Some(Describe(built.error)), connections, sleeps;
    }
    var sent;
    sent, connections, sleeps := Send(built.value, c, t);
    if sent.Err? {
      return false, Some(Describe(sent.error)), connections, sleeps;
    }
    return true, None, connections, sleeps;
  }

  /** `send_mail`: the success flag of `send_mail_ex`. */
  method SendMail(req: Request, cfg: Option<Config>, defaults: Config, v: Validator, read: Reader, t: Transport)
    returns (ok: bool)
    ensures ok <==> Dispatch(req, Resolve(cfg, defaults), v, read, t).result.Ok?
  {
    var error;
    ghost var connections, sleeps;
    ok, error, connections, sleeps := SendMailEx(req, cfg, defaults, v, read, t);
  }

  // ---------------------------------------------------------------------------
  // Properties of the entry points

  /** A missing sender is reported before anything is built or sent, whatever
      the message, validator, files or transport. */
  lemma MissingSenderFailsFirst(req: Request, cfg: Config, v: Validator, read: Reader, t: Transport,
                                req': Request, v': Validator, read': Reader, t': Transport)
    requires cfg.fromEmail == ""
    ensures Dispatch(req, cfg, v, read, t) == Report(Err(MissingSender), 0, [])
    ensures Dispatch(req, cfg, v, read, t) == Dispatch(req', cfg, v', read', t')
  {
  }

  /** Construction errors never reach the network: when the failure is not a
      transport failure, no connection was opened and nothing was slept. */
  lemma ConstructionErrorsPrecedeDelivery(req: Request, cfg: Config, v: Validator, read: Reader, t: Transport)
    requires Dispatch(req, cfg, v, read, t).result.Err?
    requires !Dispatch(req, cfg, v, read, t).result.error.TransportFailure?
    ensures Dispatch(req, cfg, v, read, t).connections == 0 && Dispatch(req, cfg, v, read, t).sleeps == []
  {
  }

  /** A dry run opens no connection and succeeds exactly when the message can be built. */
  lemma DryRunSucceedsIffBuildable(req: Request, cfg: Config, v: Validator, read: Reader, t: Transport)
    requires cfg.dryRun
    ensures Dispatch(req, cfg, v, read, t).connections == 0
    ensures Dispatch(req, cfg, v, read, t).result.Ok? <==>
      cfg.fromEmail != "" && NormalizeAddress(v, cfg.fromEmail).Ok?
      && Build(req, NormalizeAddress(v, cfg.fromEmail).value, v, read).Ok?
  {
  }

  /** The failure message for an empty To list is the code's fixed text, and
      for a rejected address it names that address. */
  lemma FailureMessages(req: Request, cfg: Config, v: Validator, read: Reader, t: Transport)
    ensures var rep := Dispatch(req, cfg, v, read, t);
      rep.result.Err? && rep.result.error.InvalidAddress? ==>
        Contains(AsPair(rep.result).1.value, rep.result.error.address)
    ensures cfg.fromEmail != "" && NormalizeAddress(v, cfg.fromEmail).Ok? && RecipientList(v, req.to) == Ok([]) ==>
      AsPair(Dispatch(req, cfg, v, read, t).result) == (false, Some("Пустой список получателей (to)."))
    ensures cfg.fromEmail == "" ==>
      AsPair(Dispatch(req, cfg, v, read, t).result) == (false, Some("FROM_EMAIL/ADMIN_EMAIL не указан в .env"))
  {
    var rep := Dispatch(req, cfg, v, read, t);
    if rep.result.Err? && rep.result.error.InvalidAddress? {
      InvalidAddressMessageNamesAddress(rep.result.error.address, rep.result.error.reason);
    }
    if cfg.fromEmail != "" && NormalizeAddress(v, cfg.fromEmail).Ok? && RecipientList(v, req.to) == Ok([]) {
      BuildEmptyRecipientsIff(req, NormalizeAddress(v, cfg.fromEmail).value, v, read);
    }
  }
}
