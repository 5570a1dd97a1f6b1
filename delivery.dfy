/**
 * The `/mail-delivered` handler's SMTP session: dial, STARTTLS, AUTH,
 * MAIL FROM, one RCPT TO per recipient in order, then DATA (open, write,
 * close), then QUIT; the transaction order of section 3.3 of RFC 5321.
 * The first step that fails ends the handler with that step's message.
 * The server is abstract: an oracle says whether the step at each
 * position of the session succeeds, and the handler's actions are
 * recorded as a trace.
 */
module Delivery {
  import opened Wrappers
  import opened Settings
  import opened Compose
  import opened Responses

  /** A session step whose error the handler checks. */
  datatype Step =
    | Dial(address: string)
    | StartTLS(serverName: string)
    | Auth(username: string, password: string, host: string)
    | Mail(sender: string)
    | Rcpt(recipient: string)
    | Data
    | Write(message: string)
    | CloseData

  /** What the handler does to the session: a checked step, QUIT, or the deferred client Close. */
  datatype Event = Attempt(step: Step) | Quit | Close

  /** The server's answers: does the step at this position of the session succeed? */
  type Oracle = (nat, Step) -> bool

  /** The stage a step belongs to. */
  function StageOf(step: Step): Stage
  {
    match step
    case Dial(_) => Connect
    case StartTLS(_) => Tls
    case Auth(_, _, _) => Authentication
    case Mail(_) => MailFrom
    case Rcpt(_) => RcptTo
    case Data => DataOpen
    case Write(_) => DataWrite
    case CloseData => DataClose
  }

  /** One RCPT TO per recipient, in list order. */
  function RcptSteps(to: seq<string>): (steps: seq<Step>)
    ensures |steps| == |to|
    ensures forall i :: 0 <= i < |to| ==> steps[i] == Rcpt(to[i])
  {
    seq(|to|, i requires 0 <= i < |to| => Rcpt(to[i]))
  }

  /** Index of the first RCPT TO in a session. */
  const FirstRcpt: nat := 4

  /**
   * Every checked step of a fully successful session, in order. The
   * envelope sender and the AUTH user are the address taken from
   * EMAIL_FROM; the data written is the whole message.
   */
  function Plan(cfg: Config, sender: string, message: string): (plan: seq<Step>)
    ensures |plan| == FirstRcpt + |cfg.emailTo| + 3
    ensures plan[0] == Dial(cfg.smtpHost + ":" + cfg.smtpPort)
    ensures plan[1] == StartTLS(cfg.smtpHost)
    ensures plan[2] == Auth(sender, cfg.emailPassword, cfg.smtpHost)
    ensures plan[3] == Mail(sender)
    ensures forall k :: FirstRcpt <= k < FirstRcpt + |cfg.emailTo| ==> plan[k] == Rcpt(cfg.emailTo[k - FirstRcpt])
    ensures var n := FirstRcpt + |cfg.emailTo|;
      plan[n] == Data && plan[n + 1] == Write(message) && plan[n + 2] == CloseData
  {
    [ Dial(cfg.smtpHost + ":" + cfg.smtpPort),
      StartTLS(cfg.smtpHost),
      Auth(sender, cfg.emailPassword, cfg.smtpHost),
      Mail(sender) ]
    + RcptSteps(cfg.emailTo)
    + [Data, Write(message), CloseData]
  }

  /** The session the handler runs for this configuration and formatted time. */
  function SessionPlan(cfg: Config, timestamp: string): seq<Step>
  {
    Plan(cfg, SenderEmail(cfg.emailFrom), Message(cfg.emailFrom, cfg.emailTo, timestamp))
  }

  /** The oracle accepts every step of `plan` before position `n`. */
  ghost predicate AcceptedBefore(plan: seq<Step>, accept: Oracle, n: nat)
    requires n <= |plan|
  {
    forall j :: 0 <= j < n ==> accept(j, plan[j])
  }

  /** The position of the first step of `plan`, from `from` on, that the oracle rejects. */
  function FirstRejected(plan: seq<Step>, accept: Oracle, from: nat): (k: Option<nat>)
    requires from <= |plan|
    ensures k.None? ==> forall j :: from <= j < |plan| ==> accept(j, plan[j])
    ensures k.Some? ==> (from <= k.value < |plan| && !accept(k.value, plan[k.value])
      && forall j :: from <= j < k.value ==> accept(j, plan[j]))
    decreases |plan| - from
  {
    if from == |plan| then None
    else if !accept(from, plan[from]) then Some(from)
    else FirstRejected(plan, accept, from + 1)
  }

  /** How the session ends: delivered, or failed at the first rejected step's stage. */
  function Outcome(plan: seq<Step>, accept: Oracle): DeliveryResult
  {
    match FirstRejected(plan, accept, 0)
    case None => Delivered
    case Some(k) => Failed(StageOf(plan[k]))
  }

  /** Steps recorded as attempted, in order. */
  function Attempts(steps: seq<Step>): (events: seq<Event>)
    ensures |events| == |steps|
    ensures forall i :: 0 <= i < |steps| ==> events[i] == Attempt(steps[i])
  {
    seq(|steps|, i requires 0 <= i < |steps| => Attempt(steps[i]))
  }

  /**
   * The handler's actions: the steps up to and including the first
   * rejected one; QUIT only after full success; the client Close last on
   * every exit after a successful dial, and never after a failed one.
   */
  function SessionTrace(plan: seq<Step>, accept: Oracle): seq<Event>
  {
    match FirstRejected(plan, accept, 0)
    case None => Attempts(plan) + [Quit, Close]
    case Some(k) => Attempts(plan[..k + 1]) + (if k == 0 then [] else [Close])
  }

  /** Attempting one more step of the plan extends the trace by that step. */
  lemma {:induction false} AttemptNext(plan: seq<Step>, n: nat)
    requires n < |plan|
    ensures Attempts(plan[..n + 1]) == Attempts(plan[..n]) + [Attempt(plan[n])]
  {
    var longer, shorter := Attempts(plan[..n + 1]), Attempts(plan[..n]) + [Attempt(plan[n])];
    assert forall i :: 0 <= i < |longer| ==> longer[i] == shorter[i];
  }

  /** The handler has attempted, and the server accepted, exactly the first `n` steps of `plan`. */
  ghost predicate Ran(plan: seq<Step>, accept: Oracle, n: nat, trace: seq<Event>)
  {
    n <= |plan| && AcceptedBefore(plan, accept, n) && trace == Attempts(plan[..n])
  }

  /** The handler has ended as the specification of the session says. */
  ghost predicate Ended(plan: seq<Step>, accept: Oracle, resp: Response, trace: seq<Event>)
  {
    resp == Respond(Outcome(plan, accept)) && trace == SessionTrace(plan, accept)
  }

  /** One more accepted step extends the accepted prefix. */
  lemma {:induction false} AcceptedNext(plan: seq<Step>, accept: Oracle, n: nat)
    requires n < |plan| && AcceptedBefore(plan, accept, n) && accept(n, plan[n])
    ensures AcceptedBefore(plan, accept, n + 1)
  {
  }

  /** When the first `k` steps succeed and step `k` fails, step `k` is the first rejected one. */
  lemma {:induction false} FirstRejectedAt(plan: seq<Step>, accept: Oracle, k: nat)
    requires k < |plan| && AcceptedBefore(plan, accept, k) && !accept(k, plan[k])
    ensures FirstRejected(plan, accept, 0) == Some(k)
  {
  }

  /** Leaving at rejected step `k` produces the trace and outcome the specification gives. */
  lemma {:induction false} StopAt(plan: seq<Step>, accept: Oracle, k: nat)
    requires k < |plan| && AcceptedBefore(plan, accept, k) && !accept(k, plan[k])
    ensures SessionTrace(plan, accept) == Attempts(plan[..k]) + [Attempt(plan[k])] + (if k == 0 then [] else [Close])
    ensures Outcome(plan, accept) == Failed(StageOf(plan[k]))
    ensures Respond(Outcome(plan, accept)) == JsonError(ErrorMessage(StageOf(plan[k])))
  {
    FirstRejectedAt(plan, accept, k);
    AttemptNext(plan, k);
  }

  /**
   * `mailDelivered`'s handler: composes the message, then runs the session
   * and writes the response.
   */
  method MailDelivered(cfg: Config, timestamp: string, accept: Oracle) returns (resp: Response, trace: seq<Event>)
    ensures resp == Respond(Outcome(SessionPlan(cfg, timestamp), accept))
    ensures trace == SessionTrace(SessionPlan(cfg, timestamp), accept)
  {
    var senderEmail := SenderEmail(cfg.emailFrom);
    var message := Message(cfg.emailFrom, cfg.emailTo, timestamp);
    resp, trace := Deliver(cfg, senderEmail, message, accept);
  }

  /**
   * One checked step at position `n` of the session: the handler issues
   * it and, when the server rejects it, writes the error message of the
   * step's stage as the error response and leaves, the deferred Close running on every exit after a
   * successful dial.
   */
  method Check(ghost plan: seq<Step>, accept: Oracle, n: nat, step: Step, trace0: seq<Event>)
    returns (failure: Option<Response>, trace: seq<Event>)
    requires n < |plan| && plan[n] == step && Ran(plan, accept, n, trace0)
    ensures failure.None? ==> Ran(plan, accept, n + 1, trace)
    ensures failure.Some? ==> Ended(plan, accept, failure.value, trace)
  {
    AttemptNext(plan, n);
    trace := trace0 + [Attempt(step)];
    if !accept(n, step) {
      StopAt(plan, accept, n);
      failure := Some(JsonError(ErrorMessage(StageOf(step))));
      if n != 0 {
        trace := trace + [Close];
      }
      return;
    }
    AcceptedNext(plan, accept, n);
    failure := None;
  }

  /** A session whose every step was accepted ends with QUIT, the client Close and a success response. */
  lemma {:induction false} Completed(plan: seq<Step>, accept: Oracle, trace: seq<Event>)
    requires Ran(plan, accept, |plan|, trace)
    ensures Ended(plan, accept, JsonSuccess(), trace + [Quit] + [Close])
  {
    assert plan[..|plan|] == plan;
  }

  /**
   * The SMTP part of the handler: runs the session step by step against
   * the oracle, stopping at the first failure, and writes the response.
   */
  method Deliver(cfg: Config, senderEmail: string, message: string, accept: Oracle)
    returns (resp: Response, trace: seq<Event>)
    ensures resp == Respond(Outcome(Plan(cfg, senderEmail, message), accept))
    ensures trace == SessionTrace(Plan(cfg, senderEmail, message), accept)
  {
    ghost var plan := Plan(cfg, senderEmail, message);
    var password, to := cfg.emailPassword, cfg.emailTo;
    var smtpHost, smtpPort := cfg.smtpHost, cfg.smtpPort;
    var failure;

    assert plan[..0] == [];
    failure, trace := Check(plan, accept, 0, Dial(smtpHost + ":" + smtpPort), []);
    if failure.Some? { resp := failure.value; return; }
    // from here on the client's Close is deferred to every exit

    failure, trace := Check(plan, accept, 1, StartTLS(smtpHost), trace);
    if failure.Some? { resp := failure.value; return; }

    failure, trace := Check(plan, accept, 2, Auth(senderEmail, password, smtpHost), trace);
    if failure.Some? { resp := failure.value; return; }

    failure, trace := Check(plan, accept, 3, Mail(senderEmail), trace);
    if failure.Some? { resp := failure.value; return; }

    failure, trace := SendRecipients(plan, accept, to, trace);
    if failure.Some? { resp := failure.value; return; }

    resp, trace := SendMessage(plan, accept, FirstRcpt + |to|, message, trace);
  }

  /**
   * DATA: open the data writer, write the message, close the writer;
   * then QUIT, whose own error is ignored, and the success response.
   */
  method SendMessage(ghost plan: seq<Step>, accept: Oracle, n: nat, message: string, trace0: seq<Event>)
    returns (resp: Response, trace: seq<Event>)
    requires n + 3 == |plan| && plan[n] == Data && plan[n + 1] == Write(message) && plan[n + 2] == CloseData
    requires Ran(plan, accept, n, trace0)
    ensures Ended(plan, accept, resp, trace)
  {
    var failure;
    failure, trace := Check(plan, accept, n, Data, trace0);
    if failure.Some? { resp := failure.value; return; }

    failure, trace := Check(plan, accept, n + 1, Write(message), trace);
    if failure.Some? { resp := failure.value; return; }

    failure, trace := Check(plan, accept, n + 2, CloseData, trace);
    if failure.Some? { resp := failure.value; return; }

    Completed(plan, accept, trace);
    trace := trace + [Quit];
    resp := JsonSuccess();
    trace := trace + [Close];
  }

  /**
   * The RCPT TO loop: one command per recipient, in list order; the first
   * rejection ends the handler, and only then is a response returned.
   */
  method SendRecipients(ghost plan: seq<Step>, accept: Oracle, to: seq<string>, trace0: seq<Event>)
    returns (failure: Option<Response>, trace: seq<Event>)
    requires FirstRcpt + |to| <= |plan|
    requires forall k :: FirstRcpt <= k < FirstRcpt + |to| ==> plan[k] == Rcpt(to[k - FirstRcpt])
    requires Ran(plan, accept, FirstRcpt, trace0)
    ensures failure.None? ==> Ran(plan, accept, FirstRcpt + |to|, trace)
    ensures failure.Some? ==> Ended(plan, accept, failure.value, trace)
  {
    trace := trace0;
    for i := 0 to |to|
      invariant Ran(plan, accept, FirstRcpt + i, trace)
    {
      assert plan[FirstRcpt + i] == Rcpt(to[i]);
      failure, trace := Check(plan, accept, FirstRcpt + i, Rcpt(to[i]), trace);
      if failure.Some? { return; }
    }
    failure := None;
  }

  /** The session is delivered, and answered 200, exactly when the server accepts every step. */
  lemma {:induction false} DeliveredIffAllAccepted(plan: seq<Step>, accept: Oracle)
    ensures Outcome(plan, accept) == Delivered <==> forall j :: 0 <= j < |plan| ==> accept(j, plan[j])
    ensures Respond(Outcome(plan, accept)).status == StatusOK <==> Outcome(plan, accept) == Delivered
  {
    match FirstRejected(plan, accept, 0)
    case None =>
    case Some(k) =>
      assert !accept(k, plan[k]);
  }

  /**
   * The client's Close runs exactly once when the dial succeeded, as the
   * last action, and never otherwise; QUIT is sent exactly once when the
   * whole session succeeded, and never otherwise.
   */
  lemma {:induction false} CloseOnceAfterDial(plan: seq<Step>, accept: Oracle)
    requires |plan| > 0
    ensures var trace := SessionTrace(plan, accept);
      multiset(trace)[Close] == (if accept(0, plan[0]) then 1 else 0)
      && (accept(0, plan[0]) ==> trace[|trace| - 1] == Close)
    ensures multiset(SessionTrace(plan, accept))[Quit] == (if Outcome(plan, accept) == Delivered then 1 else 0)
  {
    match FirstRejected(plan, accept, 0)
    case None =>
      NoQuitOrCloseAttempted(plan);
    case Some(k) =>
      NoQuitOrCloseAttempted(plan[..k + 1]);
      if k == 0 {
        assert !accept(0, plan[0]);
        assert Attempts(plan[..k + 1]) + [] == Attempts(plan[..k + 1]);
      }
  }

  /** A run of attempted steps holds neither QUIT nor Close. */
  lemma {:induction false} NoQuitOrCloseAttempted(steps: seq<Step>)
    ensures multiset(Attempts(steps))[Quit] == 0 && multiset(Attempts(steps))[Close] == 0
  {
    var events := Attempts(steps);
    assert Quit !in events && Close !in events by {
      forall i | 0 <= i < |events| ensures events[i] != Quit && events[i] != Close {
        assert events[i] == Attempt(steps[i]);
      }
    }
  }

  /** The recipients named by the RCPT TO commands among `events`, in order. */
  function RcptSent(events: seq<Event>): seq<string>
  {
    if events == [] then []
    else
      (if events[0].Attempt? && events[0].step.Rcpt? then [events[0].step.recipient] else [])
      + RcptSent(events[1..])
  }

  /** How many recipients have been named after the first `m` steps of a session. */
  function RcptCount(m: nat, recipients: nat): nat
  {
    if m <= FirstRcpt then 0 else if m <= FirstRcpt + recipients then m - FirstRcpt else recipients
  }

  /** The recipients named by two runs of events, one after the other. */
  lemma {:induction false} RcptSentConcat(a: seq<Event>, b: seq<Event>)
    ensures RcptSent(a + b) == RcptSent(a) + RcptSent(b)
  {
    if a == [] {
      assert a + b == b;
    } else {
      assert (a + b)[0] == a[0];
      assert (a + b)[1..] == a[1..] + b;
      RcptSentConcat(a[1..], b);
    }
  }

  /** Attempting two runs of steps is attempting the first, then the second. */
  lemma {:induction false} AttemptsConcat(a: seq<Step>, b: seq<Step>)
    ensures Attempts(a + b) == Attempts(a) + Attempts(b)
  {
    assert forall i :: 0 <= i < |a + b| ==> Attempts(a + b)[i] == (Attempts(a) + Attempts(b))[i];
  }

  /** The attempts after the first one are the attempts of the remaining steps. */
  lemma {:induction false} AttemptsTail(steps: seq<Step>)
    requires steps != []
    ensures Attempts(steps)[1..] == Attempts(steps[1..])
  {
    assert forall i :: 0 <= i < |steps| - 1 ==> Attempts(steps)[1..][i] == Attempts(steps[1..])[i];
  }

  /** Steps that are not RCPT TO name no recipient. */
  lemma {:induction false} NoRcptSent(steps: seq<Step>)
    requires forall i :: 0 <= i < |steps| ==> !steps[i].Rcpt?
    ensures RcptSent(Attempts(steps)) == []
  {
    if steps != [] {
      AttemptsTail(steps);
      NoRcptSent(steps[1..]);
    }
  }

  /** One RCPT TO per recipient names exactly the recipients, in order. */
  lemma {:induction false} RcptSentOfRcptSteps(to: seq<string>)
    ensures RcptSent(Attempts(RcptSteps(to))) == to
  {
    if to != [] {
      var steps := RcptSteps(to);
      AttemptsTail(steps);
      assert steps[1..] == RcptSteps(to[1..]);
      RcptSentOfRcptSteps(to[1..]);
      assert to == [to[0]] + to[1..];
    }
  }

  /**
   * A session is four opening steps, one RCPT TO per recipient, then the
   * DATA steps; after its first `m` steps RCPT TO has named the first
   * recipients, in list order.
   */
  lemma {:induction false} RcptSentOfPrefix(head: seq<Step>, to: seq<string>, tail: seq<Step>, m: nat)
    requires |head| == FirstRcpt && m <= |head| + |to| + |tail|
    requires forall i :: 0 <= i < |head| ==> !head[i].Rcpt?
    requires forall i :: 0 <= i < |tail| ==> !tail[i].Rcpt?
    ensures RcptSent(Attempts((head + RcptSteps(to) + tail)[..m])) == to[..RcptCount(m, |to|)]
  {
    if m <= FirstRcpt {
      RcptSentWithinHead(head, RcptSteps(to) + tail, m);
      assert head + RcptSteps(to) + tail == head + (RcptSteps(to) + tail);
    } else if m <= FirstRcpt + |to| {
      RcptSentWithinRcpts(head, to, tail, m - FirstRcpt);
    } else {
      RcptSentWithinTail(head, to, tail, m - FirstRcpt - |to|);
    }
  }

  /** Stopping among the four opening steps: no recipient named yet. */
  lemma {:induction false} RcptSentWithinHead(head: seq<Step>, rest: seq<Step>, m: nat)
    requires m <= |head|
    requires forall i :: 0 <= i < |head| ==> !head[i].Rcpt?
    ensures RcptSent(Attempts((head + rest)[..m])) == []
  {
    assert (head + rest)[..m] == head[..m];
    NoRcptSent(head[..m]);
  }

  /** Stopping among the RCPT TO commands. */
  lemma {:induction false} RcptSentWithinRcpts(head: seq<Step>, to: seq<string>, tail: seq<Step>, j: nat)
    requires j <= |to|
    requires forall i :: 0 <= i < |head| ==> !head[i].Rcpt?
    ensures RcptSent(Attempts((head + RcptSteps(to) + tail)[..|head| + j])) == to[..j]
  {
    assert (head + RcptSteps(to) + tail)[..|head| + j] == head + RcptSteps(to)[..j];
    RcptSentOfRcptPrefix(head, to, j);
  }

  /** Stopping among the DATA steps. */
  lemma {:induction false} RcptSentWithinTail(head: seq<Step>, to: seq<string>, tail: seq<Step>, j: nat)
    requires j <= |tail|
    requires forall i :: 0 <= i < |head| ==> !head[i].Rcpt?
    requires forall i :: 0 <= i < |tail| ==> !tail[i].Rcpt?
    ensures RcptSent(Attempts((head + RcptSteps(to) + tail)[..|head| + |to| + j])) == to
  {
    assert (head + RcptSteps(to) + tail)[..|head| + |to| + j] == head + RcptSteps(to) + tail[..j];
    RcptSentAfterRcpts(head, to, tail[..j]);
  }

  /** The four opening steps and RCPT TO for the first `j` recipients name those `j`. */
  lemma {:induction false} RcptSentOfRcptPrefix(head: seq<Step>, to: seq<string>, j: nat)
    requires j <= |to|
    requires forall i :: 0 <= i < |head| ==> !head[i].Rcpt?
    ensures RcptSent(Attempts(head + RcptSteps(to)[..j])) == to[..j]
  {
    assert RcptSteps(to)[..j] == RcptSteps(to[..j]);
    AttemptsConcat(head, RcptSteps(to[..j]));
    RcptSentConcat(Attempts(head), Attempts(RcptSteps(to[..j])));
    NoRcptSent(head);
    RcptSentOfRcptSteps(to[..j]);
  }

  /** Steps after the RCPT TO commands add no recipient. */
  lemma {:induction false} RcptSentAfterRcpts(head: seq<Step>, to: seq<string>, tail: seq<Step>)
    requires forall i :: 0 <= i < |head| ==> !head[i].Rcpt?
    requires forall i :: 0 <= i < |tail| ==> !tail[i].Rcpt?
    ensures RcptSent(Attempts(head + RcptSteps(to) + tail)) == to
  {
    var front := head + RcptSteps(to);
    AttemptsConcat(front, tail);
    RcptSentConcat(Attempts(front), Attempts(tail));
    NoRcptSent(tail);
    RcptSentOfRcptPrefix(head, to, |to|);
    assert RcptSteps(to)[..|to|] == RcptSteps(to);
    assert to[..|to|] == to;
  }

  /**
   * The recipients are sent RCPT TO in list order: all of them on success,
   * those up to and including the rejected one when a RCPT TO fails (and
   * then DATA is never opened), none when the session fails before.
   */
  lemma {:induction false} RecipientsInOrder(cfg: Config, sender: string, message: string, accept: Oracle)
    ensures var plan := Plan(cfg, sender, message);
      var trace, to := SessionTrace(plan, accept), cfg.emailTo;
      match FirstRejected(plan, accept, 0)
      case None => RcptSent(trace) == to
      case Some(k) =>
        && (k < FirstRcpt ==> RcptSent(trace) == [])
        && (FirstRcpt <= k < FirstRcpt + |to| ==> RcptSent(trace) == to[..k - FirstRcpt + 1] && Attempt(Data) !in trace)
        && (FirstRcpt + |to| <= k ==> RcptSent(trace) == to)
  {
    var head := [
      Dial(cfg.smtpHost + ":" + cfg.smtpPort),
      StartTLS(cfg.smtpHost),
      Auth(sender, cfg.emailPassword, cfg.smtpHost),
      Mail(sender)];
    var tail := [Data, Write(message), CloseData];
    var plan := Plan(cfg, sender, message);
    assert plan == head + RcptSteps(cfg.emailTo) + tail;
    SessionRecipients(plan, head, cfg.emailTo, tail, accept);
  }

  /** The recipients a session names, wherever it stops. */
  lemma {:induction false} SessionRecipients(plan: seq<Step>, head: seq<Step>, to: seq<string>, tail: seq<Step>, accept: Oracle)
    requires plan == head + RcptSteps(to) + tail && |head| == FirstRcpt
    requires forall i :: 0 <= i < |head| ==> !head[i].Rcpt? && head[i] != Data
    requires forall i :: 0 <= i < |tail| ==> !tail[i].Rcpt?
    ensures var trace := SessionTrace(plan, accept);
      match FirstRejected(plan, accept, 0)
      case None => RcptSent(trace) == to
      case Some(k) =>
        && (k < FirstRcpt ==> RcptSent(trace) == [])
        && (FirstRcpt <= k < FirstRcpt + |to| ==> RcptSent(trace) == to[..k - FirstRcpt + 1] && Attempt(Data) !in trace)
        && (FirstRcpt + |to| <= k ==> RcptSent(trace) == to)
  {
    match FirstRejected(plan, accept, 0)
    case None =>
      DeliveredRecipients(plan, head, to, tail, accept);
    case Some(k) =>
      StoppedRecipients(plan, head, to, tail, k);
      RcptCountPrefix(to, k + 1);
  }

  /** A delivered session names every recipient. */
  lemma {:induction false} DeliveredRecipients(plan: seq<Step>, head: seq<Step>, to: seq<string>, tail: seq<Step>, accept: Oracle)
    requires plan == head + RcptSteps(to) + tail && |head| == FirstRcpt
    requires forall i :: 0 <= i < |head| ==> !head[i].Rcpt?
    requires forall i :: 0 <= i < |tail| ==> !tail[i].Rcpt?
    requires FirstRejected(plan, accept, 0).None?
    ensures RcptSent(SessionTrace(plan, accept)) == to
  {
    assert SessionTrace(plan, accept) == Attempts(plan) + [Quit, Close];
    RcptSentAfterRcpts(head, to, tail);
    RcptSentConcat(Attempts(plan), [Quit, Close]);
  }

  /** The recipients named after the first `m` steps, by where `m` falls in the session. */
  lemma {:induction false} RcptCountPrefix(to: seq<string>, m: nat)
    ensures m <= FirstRcpt ==> to[..RcptCount(m, |to|)] == []
    ensures FirstRcpt < m <= FirstRcpt + |to| ==> to[..RcptCount(m, |to|)] == to[..m - FirstRcpt]
    ensures FirstRcpt + |to| < m ==> to[..RcptCount(m, |to|)] == to
  {
    if FirstRcpt + |to| < m {
      assert to[..|to|] == to;
    }
  }

  /** Stopping after step `k`: the recipients named so far, and no DATA when `k` comes before it. */
  lemma {:induction false} StoppedRecipients(plan: seq<Step>, head: seq<Step>, to: seq<string>, tail: seq<Step>, k: nat)
    requires plan == head + RcptSteps(to) + tail && |head| == FirstRcpt && k < |plan|
    requires forall i :: 0 <= i < |head| ==> !head[i].Rcpt? && head[i] != Data
    requires forall i :: 0 <= i < |tail| ==> !tail[i].Rcpt?
    ensures var trace := Attempts(plan[..k + 1]) + (if k == 0 then [] else [Close]);
      && RcptSent(trace) == to[..RcptCount(k + 1, |to|)]
      && (k < FirstRcpt + |to| ==> Attempt(Data) !in trace)
  {
    RcptSentOfPrefix(head, to, tail, k + 1);
    var attempted := Attempts(plan[..k + 1]);
    var after: seq<Event> := if k == 0 then [] else [Close];
    RcptSentConcat(attempted, after);
    if k < FirstRcpt + |to| {
      NoDataBeforeData(plan, head, to, tail, k);
    }
  }

  /** Before the DATA steps no attempt is DATA, and the Close after it is not either. */
  lemma {:induction false} NoDataBeforeData(plan: seq<Step>, head: seq<Step>, to: seq<string>, tail: seq<Step>, k: nat)
    requires plan == head + RcptSteps(to) + tail && |head| == FirstRcpt && k < FirstRcpt + |to|
    requires forall i :: 0 <= i < |head| ==> head[i] != Data
    ensures Attempt(Data) !in Attempts(plan[..k + 1]) + (if k == 0 then [] else [Close])
  {
    var attempted := Attempts(plan[..k + 1]);
    var trace := attempted + (if k == 0 then [] else [Close]);
    forall i | 0 <= i < |trace| ensures trace[i] != Attempt(Data) {
      if i < |attempted| {
        assert attempted[i] == Attempt(plan[i]);
        assert plan[i] != Data;
      }
    }
  }

  /**
   * Step order and early exit: the handler attempts the steps of the plan
   * in order, through the first rejected one and no further; after it
   * comes only the Close (or, on success, QUIT and Close).
   */
  lemma {:induction false} AttemptsInOrder(plan: seq<Step>, accept: Oracle)
    ensures var trace := SessionTrace(plan, accept);
      match FirstRejected(plan, accept, 0)
      case None =>
        && |trace| == |plan| + 2
        && (forall i :: 0 <= i < |plan| ==> trace[i] == Attempt(plan[i]))
        && trace[|plan|..] == [Quit, Close]
      case Some(k) =>
        && |trace| == (if k == 0 then 1 else k + 2)
        && (forall i :: 0 <= i <= k ==> trace[i] == Attempt(plan[i]))
        && (k > 0 ==> trace[k + 1] == Close)
  {
    match FirstRejected(plan, accept, 0)
    case None =>
      assert plan[..|plan|] == plan;
      var trace := Attempts(plan) + [Quit, Close];
      assert trace[|plan|..] == [Quit, Close];
    case Some(k) =>
      var attempted := Attempts(plan[..k + 1]);
      forall i | 0 <= i <= k ensures attempted[i] == Attempt(plan[i]) {
        assert plan[..k + 1][i] == plan[i];
      }
  }
}
