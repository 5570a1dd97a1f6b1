# Mailbox notification service, modelled in Dafny

The service is a small HTTP server (`server/main.go`). A mailbox sensor calls its
`/mail-delivered` endpoint. The handler then sends one notification e-mail
through an SMTP relay and answers with a JSON success or error object. At start-up the
server reads its configuration from the environment. The start-up check fails
with an error naming the first required variable that is unset or empty.

This project models the core of that program:

- `settings.dfy` (module `Settings`): the configuration and `loadConfig`.
  - The configuration is a value (`Config`). The environment is a map.
  - `loadConfig` is a method. It has the required-variable loop. It splits
    EMAIL_TO at commas into an array and trims each entry in place.
  - `getEnvWithDefault` and the `PORT` default are modelled too.
  - `Recipients` is the function that gives the recipient list of an EMAIL_TO
    value (main.go:44-50). `ParseRecipients` is proved equal to it, and the
    `Recipients…` lemmas are about it.
- `compose.dfy` (module `Compose`): what the handler builds before it dials.
  - The subject (`Subject`) and the fixed body (`Body`).
  - The envelope sender taken from EMAIL_FROM: `SenderEmail` (main.go:97-103).
    The `Sender…` lemmas are about it.
  - The message text with its CRLF-framed header block: `Message` (main.go:106-112),
    with `HeaderFields` listing its five header lines. The `Message…` lemmas and
    `OnlySubjectDependsOnTime` are about it.
- `responses.dfy` (module `Responses`): the eight fixed error messages
  (`ErrorMessage`, main.go:124-178) and the response written by
  `returnJSONSuccess` and `returnJSONError`.
- `delivery.dfy` (module `Delivery`): the SMTP session.
  - The steps run in order: dial, STARTTLS, AUTH, MAIL FROM, one RCPT TO per
    recipient, DATA (open, write, close), QUIT.
  - The first failing step ends the handler.
  - The client's deferred Close runs after a successful dial.
  - The SMTP server is an oracle `accept(position, step)`. The handler's actions
    are recorded as a trace.
  - `Deliver` is proved against specification functions:
    - `Plan`: the steps of a fully successful session;
    - `FirstRejected`;
    - `Outcome`;
    - `SessionTrace`.
    The lemmas then state what those functions promise.
- `strings.dfy` (module `Strings`): the parts of Go's `strings` package the core uses.
  - `Split`, `Join`, `TrimSpace` with `unicode.IsSpace`, and `TrimSuffix`.
    `Join` and `TrimSpace` are specified by the `JoinSplit`/`SplitJoin` and
    `TrimSpace…` lemmas.
  - A CRLF line reader, `Lines`. It is the partner that shows how the message is framed.
- `wrappers.dfy` (module `Wrappers`): `Option` and `Result`.

## Model

| member | source | states |
|---|---|---|
| Settings.Getenv | server/main.go:64 | an unset variable reads as "", a set one as its value |
| Settings.GetEnvWithDefault | server/main.go:63-69 | a non-empty value is returned as is. An empty or unset value gives the default. The result is empty only when both the value and the default are |
| Settings.LoadConfig | server/main.go:35-60 | fails exactly when some required variable is empty. The error then names the first empty one in the order EMAIL_FROM, EMAIL_PASSWORD, EMAIL_TO, SMTP_HOST, SMTP_PORT. On success: PORT defaults to "3333", the other fields are copied verbatim, and the recipients are the trimmed comma pieces of EMAIL_TO. Every field except the recipient entries is non-empty, and there is at least one recipient |
| Settings.RequiredAreSet | server/main.go:26-41 | once every required variable has passed the check, EMAIL_FROM, EMAIL_PASSWORD, SMTP_HOST and SMTP_PORT are non-empty |
| Settings.ParseRecipients | server/main.go:44-50 | splitting EMAIL_TO at commas into an array and trimming it in place gives exactly `Recipients(EMAIL_TO)` |
| Settings.TrimEach | server/main.go:48-50 | every entry of the array becomes its old value trimmed |
| Settings.RecipientsShape | server/main.go:44-50 | the recipient count is the number of commas plus one, and recipient i is the trimmed i-th piece |
| Settings.RecipientsHaveNoComma | server/main.go:45-50 | no recipient contains a comma |
| Settings.RecipientsOfPieces | server/main.go:45-50 | pieces that are already trimmed are the recipients unchanged |
| Settings.EmptyMiddleRecipientKept | server/main.go:45-50 | "a,,b" gives three recipients, the middle one empty: empty entries are kept |
| Settings.BlankRecipientListKept | server/main.go:37-50 | a blank EMAIL_TO passes the required check and yields one empty recipient |
| Strings.Split | server/main.go:45 | `strings.Split` on a one-character separator. It gives one more piece than there are separators, and no piece contains the separator |
| Strings.JoinSplit | server/main.go:45 | joining the pieces with the separator gives back the input |
| Strings.SplitJoin | server/main.go:107 | for a non-empty list of separator-free pieces, splitting their join gives back the pieces (the empty list joins to "", which splits to one empty piece) |
| Strings.SplitWithoutSeparator | server/main.go:98 | a string without the separator splits into itself alone |
| Strings.SplitAtFirst | server/main.go:98 | the first piece ends at the first separator, and the rest is the split of what follows it |
| Strings.SplitFirstPiece | server/main.go:98-100 | the first piece is the prefix up to the first separator |
| Strings.TrimLeftSpaceIsSuffix | server/main.go:49 | the leading-whitespace trim (`TrimLeftFunc` with `unicode.IsSpace`, the first half of `TrimSpace`) keeps a suffix of its input |
| Strings.TrimLeftSpaceDropsSpace | server/main.go:49 | what the leading trim drops is all whitespace |
| Strings.TrimLeftSpaceStops | server/main.go:49 | the result of the leading trim does not start with whitespace |
| Strings.TrimRightSpaceIsPrefix | server/main.go:49 | the trailing-whitespace trim (`TrimRightFunc` with `unicode.IsSpace`, the second half of `TrimSpace`) keeps a prefix of its input |
| Strings.TrimRightSpaceDropsSpace | server/main.go:49 | what the trailing trim drops is all whitespace |
| Strings.TrimRightSpaceStops | server/main.go:49 | the result of the trailing trim does not end with whitespace |
| Strings.TrimSpaceKeepsInfix | server/main.go:49 | `strings.TrimSpace` keeps a contiguous part of its input. Both dropped ends are whitespace, and the result has whitespace at neither end |
| Strings.TrimSpaceUnique | server/main.go:49 | take s as whitespace, then a part with no whitespace at its ends, then whitespace. TrimSpace(s) is exactly that part |
| Strings.TrimSpaceIdempotent | server/main.go:49 | trimming twice is trimming once |
| Strings.TrimSpaceKeepsCharacters | server/main.go:49 | a character absent from the input is absent from the result |
| Strings.TrimSuffix | server/main.go:100 | `strings.TrimSuffix` with ">": the result is the input or the input less one final '>'. It loses the '>' exactly when the input ends with one |
| Strings.Lines | server/main.go:106-112 | the CRLF line reader: there is always at least one line |
| Strings.LinesWithoutCR | server/main.go:106-112 | text without a carriage return is a single line |
| Strings.LinesAfterLine | server/main.go:106-112 | a CR-free line followed by CRLF is read back as the first line |
| Strings.LinesOfFramed | server/main.go:106-112 | CR-free lines, each ending in CRLF, are read back as exactly those lines |
| Compose.Subject | server/main.go:93 | the subject is "Mail Delivered - " followed by the formatted time, and nothing else |
| Compose.SenderOfBareAddress | server/main.go:98-103 | an EMAIL_FROM without '<' is used as the envelope sender unchanged |
| Compose.SenderBetweenBrackets | server/main.go:97-103 | take the text after the first '<' up to the next '<' or the end. The sender is that text less one trailing '>' |
| Compose.SenderAfterFirstBracket | server/main.go:97-100 | with no '<' before index i and a '<' at i, the sender comes from the first '<'-free piece after i, less one trailing '>' |
| Compose.SenderOfDisplayAddress | server/main.go:97-103 | `Name <addr>` gives `addr` when neither part contains '<' |
| Compose.SenderOfJaneDoe | server/main.go:96-103 | "Jane Doe <jane@example.com>" gives "jane@example.com" |
| Compose.SenderKeepsTextAfterBracket | server/main.go:99-100 | text after the closing '>' stays in the sender. Only a '>' at the very end is removed |
| Compose.BodyHasNoCR | server/main.go:94 | the fixed body holds no carriage return |
| Compose.JoinWithoutCR | server/main.go:107 | joining CR-free recipients with ',' gives a CR-free To value |
| Compose.MessageIsFramed | server/main.go:106-112 | the message is the five header fields, an empty line and the body, each followed by CRLF |
| Compose.MessageLinesHaveNoCR | server/main.go:106-112 | with CR-free inputs, none of the framed lines holds a carriage return |
| Compose.MessageLines | server/main.go:106-112 | when EMAIL_FROM, the recipients and the time contain no CR, the message read as CRLF lines is exactly: From, To, Subject, MIME-Version, Content-Type, an empty line, the body, and nothing after the last CRLF. The header fields are non-empty, so the first empty line ends the header |
| Compose.ToFieldRecoversRecipients | server/main.go:107 | the To field is "To: " plus the recipients joined with ','. For a non-empty recipient list in which no entry contains a comma, splitting it back gives the recipients |
| Compose.OnlySubjectDependsOnTime | server/main.go:93-112 | when EMAIL_FROM, the recipients and both times contain no CR, messages for the same configuration at two times have the same eight lines except the Subject line |
| Compose.MessageDeterminesTime | server/main.go:93-112 | for every EMAIL_FROM and recipient list, two messages are equal exactly when their formatted times are |
| Responses.ErrorMessageNamesStage | server/main.go:121-180 | each of the eight error messages names its own stage, so no two stages share a message |
| Responses.JsonSuccess | server/main.go:191-195 | status 200, `success` true, no error text |
| Responses.JsonError | server/main.go:198-206 | status 500, `success` false, the given error text |
| Responses.Respond | server/main.go:121-186 | success and status 200 exactly for a delivered session; otherwise status 500 with the failing stage's fixed error message |
| Responses.RespondIsFaithful | server/main.go:186-206 | the response determines the outcome, including the failing stage |
| Delivery.RcptSteps | server/main.go:152-158 | one RCPT TO per recipient, in list order |
| Delivery.Plan | server/main.go:121-180 | the checked steps of a successful session, in order: dial host:port, STARTTLS with the host as server name, AUTH with the sender address, password and host, MAIL FROM the sender, RCPT TO each recipient, DATA, write the message, close the writer |
| Delivery.FirstRejected | server/main.go:121-180 | None when the server accepts every step. Otherwise the position of a rejected step with every earlier step accepted |
| Delivery.StopAt | server/main.go:121-180 | leaving at the first rejected step gives that step's stage as the outcome and that stage's message in a 500 response. The trace is the steps through it, then Close unless it was the dial |
| Delivery.MailDelivered | server/main.go:71-187 | the handler's response and actions are those of the session for the configured addresses, the derived sender and the composed message |
| Delivery.Deliver | server/main.go:120-186 | running the session step by step gives exactly `Respond(Outcome(plan))` and `SessionTrace(plan)` |
| Delivery.Check | server/main.go:130-134 | one checked step: on acceptance, one more step of the plan is done. On rejection, the handler ends as the session specification says |
| Delivery.SendRecipients | server/main.go:151-158 | the RCPT TO loop either has every recipient accepted, or ends the handler at the first rejection |
| Delivery.SendMessage | server/main.go:160-186 | DATA, write and close, then QUIT and the success response. Any failure ends the handler with that stage's error |
| Delivery.Completed | server/main.go:182-186 | a session with every step accepted ends with QUIT, then Close, and a success response |
| Delivery.DeliveredIffAllAccepted | server/main.go:121-186 | delivered, and answered 200, exactly when every step is accepted |
| Delivery.CloseOnceAfterDial | server/main.go:121-127 | Close runs exactly once when the dial succeeds, and as the last action. It never runs when the dial fails. QUIT is sent exactly once on success and never otherwise |
| Delivery.AttemptsInOrder | server/main.go:121-186 | the handler attempts the plan's steps in order, through the first rejected step and no further. Only Close (or QUIT and Close on success) follows |
| Delivery.RcptSentOfRcptSteps | server/main.go:152-158 | the RCPT TO commands of the loop name exactly the recipient list, in order, each once |
| Delivery.RcptSentOfPrefix | server/main.go:121-166 | after any number of steps of a session (four opening steps, the RCPT TO loop, then the DATA steps), RCPT TO has named the matching prefix of the recipient list, in order |
| Delivery.SessionRecipients | server/main.go:151-166 | for any session laid out as four opening steps, one RCPT TO per recipient and the DATA steps: all recipients are named on success. None are named on a failure before RCPT TO. A failure at recipient i names recipients 0..i and never opens DATA. A later failure names all of them |
| Delivery.DeliveredRecipients | server/main.go:151-186 | a delivered session names every recipient, in order |
| Delivery.NoDataBeforeData | server/main.go:151-160 | stopping before the DATA step leaves no DATA attempt in the trace |
| Delivery.StoppedRecipients | server/main.go:151-166 | stopping after step k: the recipients named so far, and no DATA when k comes before it |
| Delivery.RecipientsInOrder | server/main.go:151-158 | all recipients on success; none when failing before RCPT TO. A RCPT TO failure at recipient i names recipients 0..i and never opens DATA; a later failure names all of them |

## Left out

- The network, TLS and SMTP protocol details are not modelled.
  - This covers the dial, the TLS handshake and its `InsecureSkipVerify` setting, and PLAIN authentication.
  - Each step's success is an input (the oracle), not the reply of a modelled server.
  - The underlying error values are not modelled either: the handler only logs them.
- The result of QUIT and of the deferred Close is not modelled. The handler ignores both.
- The data writer's line-ending normalisation and dot-stuffing are not modelled. The trace records the message as handed to `Write`.
- The clock is not modelled. This covers the `America/Los_Angeles` lookup, its fallback to UTC and the time format. The formatted time is a parameter of `MailDelivered`.
- HTTP is not modelled.
  - The request is not examined and is not modelled.
  - The response is modelled as its status, `success` flag and `error` text, not as encoded JSON.
  - The Content-Type header is not modelled.
- Logging with `fmt.Printf` is not modelled.
- `main` is not modelled: `os.Exit` on a configuration error, the request multiplexer and `ListenAndServe`.
- Concurrent handler invocations are not modelled. Each call is modelled on its own.
- Strings are sequences of Unicode code points, where Go strings are UTF-8 bytes.
  - `IsSpace` lists the code points for which Go's `unicode.IsSpace` is true.
  - Invalid UTF-8 is not modelled.
- The body text is written as three named constants joined by its blank lines, with the longer lines split into two literals. The text is the same as the single Go literal at `server/main.go:94`.
- EMAIL_TO entries are not validated. Empty entries are kept ("a,,b", or a blank value), so only the number of recipients is guaranteed to be at least one.
- The data writer turns a bare LF into CRLF on the wire; that normalisation is not modelled. `NoCarriageReturn` excludes only CR from EMAIL_FROM and EMAIL_TO, so a bare LF in either becomes a line break in what the server receives, and `MessageLines` describes the text handed to `Write`, not the bytes on the wire.
