/** The contact-form relay (cloudflare-worker/worker.js): the validation
    chain `validateFormData`, the HTML escaper `sanitizeInput`, the header
    merge of `jsonResponse` and the request dispatch of `handleRequest`.
    Fields of the parsed JSON body are optional strings; a body that fails
    to parse is a request whose `body` is `None`; the outbound e-mail API is
    the function parameter `send`. */
module Worker {
  import opened Wrappers
  import opened JsText
  import opened EmailPattern

  // ---------------------------------------------------------------------
  // validateFormData
  // ---------------------------------------------------------------------

  /** The failures `validateFormData` reports, in the order it checks them. */
  datatype FormError =
    | MissingRequired
    | NameLength
    | NameCharacters
    | InvalidEmail
    | MessageTooShort
    | MessageTooLong
    | SubjectTooLong
  {
    /** Position of the rule in the checking order. */
    function Rank(): nat
    {
      match this
      case MissingRequired => 0
      case NameLength => 1
      case NameCharacters => 2
      case InvalidEmail => 3
      case MessageTooShort => 4
      case MessageTooLong => 5
      case SubjectTooLong => 6
    }

    /** The message returned to the client. */
    function Message(): string
    {
      match this
      case MissingRequired => "Please fill in all required fields (name, email, message)"
      case NameLength => "Name must be between 2 and 100 characters"
      case NameCharacters => "Name can only contain letters, spaces, hyphens, and apostrophes"
      case InvalidEmail => "Please enter a valid email address"
      case MessageTooShort => "Message must be at least 10 characters"
      case MessageTooLong => "Message must not exceed 2000 characters"
      case SubjectTooLong => "Subject must not exceed 200 characters"
    }
  }

  /** One character of the name pattern `[a-zA-Z\s'-]`. */
  predicate NameChar(c: char)
  {
    IsAsciiLetter(c) || IsWhiteSpace(c) || c == '\'' || c == '-'
  }

  /** `/^[a-zA-Z\s'-]+$/.test(name)` */
  predicate NamePattern(name: string)
  {
    |name| > 0 && forall i :: 0 <= i < |name| ==> NameChar(name[i])
  }

  function Text(o: Option<string>): string
  {
    o.GetOr("")
  }

  /** `validateFormData(name, email, subject, message)`: the first failing
      rule, or `None` (the source's `null`). Lengths are JavaScript
      `length`s, in UTF-16 code units. */
  function ValidateFormData(name: Option<string>, email: Option<string>,
                            subject: Option<string>, message: Option<string>): (r: Option<FormError>)
    ensures r.None? ==> Truthy(name) && Truthy(email) && Truthy(message)
    ensures r.None? ==> 2 <= Utf16Length(name.value) <= 100 && 10 <= Utf16Length(message.value) <= 2000
  {
    if !Truthy(name) || !Truthy(email) || !Truthy(message) then Some(MissingRequired)
    else if Utf16Length(name.value) < 2 || Utf16Length(name.value) > 100 then Some(NameLength)
    else if !NamePattern(name.value) then Some(NameCharacters)
    else if !Matches(email.value, Worker) then Some(InvalidEmail)
    else if Utf16Length(message.value) < 10 then Some(MessageTooShort)
    else if Utf16Length(message.value) > 2000 then Some(MessageTooLong)
    else if Truthy(subject) && Utf16Length(subject.value) > 200 then Some(SubjectTooLong)
    else None
  }

  /** Each rule read on its own, as the specification of the chain. The
      e-mail rule is stated through the language of the regular expression,
      not through the matcher. */
  ghost predicate RulePasses(e: FormError, name: Option<string>, email: Option<string>,
                             subject: Option<string>, message: Option<string>)
  {
    match e
    case MissingRequired => Truthy(name) && Truthy(email) && Truthy(message)
    case NameLength => 2 <= Utf16Length(Text(name)) <= 100
    case NameCharacters => NamePattern(Text(name))
    case InvalidEmail => EmailShape(Text(email), Worker)
    case MessageTooShort => Utf16Length(Text(message)) >= 10
    case MessageTooLong => Utf16Length(Text(message)) <= 2000
    case SubjectTooLong => !Truthy(subject) || Utf16Length(subject.value) <= 200
  }

  /** The chain restated over the rules: the first failing rule in rank
      order. */
  ghost function RuleChain(name: Option<string>, email: Option<string>,
                           subject: Option<string>, message: Option<string>): Option<FormError>
  {
    if !RulePasses(MissingRequired, name, email, subject, message) then Some(MissingRequired)
    else if !RulePasses(NameLength, name, email, subject, message) then Some(NameLength)
    else if !RulePasses(NameCharacters, name, email, subject, message) then Some(NameCharacters)
    else if !RulePasses(InvalidEmail, name, email, subject, message) then Some(InvalidEmail)
    else if !RulePasses(MessageTooShort, name, email, subject, message) then Some(MessageTooShort)
    else if !RulePasses(MessageTooLong, name, email, subject, message) then Some(MessageTooLong)
    else if !RulePasses(SubjectTooLong, name, email, subject, message) then Some(SubjectTooLong)
    else None
  }

  /** The matcher-based chain is the rule chain. */
  lemma ValidateFollowsRules(name: Option<string>, email: Option<string>,
                             subject: Option<string>, message: Option<string>)
    ensures ValidateFormData(name, email, subject, message) == RuleChain(name, email, subject, message)
  {
    MatchesIffShape(Text(email), Worker);
  }

  /** The chain reports `e` exactly when rule `e` fails and every rule
      checked before it passes. */
  lemma ValidateReportsFirstFailure(e: FormError, name: Option<string>, email: Option<string>,
                                    subject: Option<string>, message: Option<string>)
    ensures ValidateFormData(name, email, subject, message) == Some(e)
        <==> (!RulePasses(e, name, email, subject, message)
              && forall e': FormError :: e'.Rank() < e.Rank() ==> RulePasses(e', name, email, subject, message))
  {
    ValidateFollowsRules(name, email, subject, message);
    var r := RuleChain(name, email, subject, message);
    var p0, p1 := RulePasses(MissingRequired, name, email, subject, message), RulePasses(NameLength, name, email, subject, message);
    var p2, p3 := RulePasses(NameCharacters, name, email, subject, message), RulePasses(InvalidEmail, name, email, subject, message);
    var p4, p5 := RulePasses(MessageTooShort, name, email, subject, message), RulePasses(MessageTooLong, name, email, subject, message);
    var p6 := RulePasses(SubjectTooLong, name, email, subject, message);
    assert r == if !p0 then Some(MissingRequired) else if !p1 then Some(NameLength)
      else if !p2 then Some(NameCharacters) else if !p3 then Some(InvalidEmail)
      else if !p4 then Some(MessageTooShort) else if !p5 then Some(MessageTooLong)
      else if !p6 then Some(SubjectTooLong) else None;
    if r == Some(e) {
      forall e': FormError | e'.Rank() < e.Rank()
        ensures RulePasses(e', name, email, subject, message)
      {
      }
    }
    if !RulePasses(e, name, email, subject, message)
       && forall e': FormError :: e'.Rank() < e.Rank() ==> RulePasses(e', name, email, subject, message)
    {
      assert RulePasses(MissingRequired, name, email, subject, message) || e == MissingRequired;
      assert RulePasses(NameLength, name, email, subject, message) || e.Rank() <= 1;
      assert RulePasses(NameCharacters, name, email, subject, message) || e.Rank() <= 2;
      assert RulePasses(InvalidEmail, name, email, subject, message) || e.Rank() <= 3;
      assert RulePasses(MessageTooShort, name, email, subject, message) || e.Rank() <= 4;
      assert RulePasses(MessageTooLong, name, email, subject, message) || e.Rank() <= 5;
    }
  }

  /** `null` comes back exactly when every rule passes. */
  lemma ValidateAcceptsIffAllRulesPass(name: Option<string>, email: Option<string>,
                                       subject: Option<string>, message: Option<string>)
    ensures ValidateFormData(name, email, subject, message).None?
        <==> forall e: FormError :: RulePasses(e, name, email, subject, message)
  {
    MatchesIffShape(Text(email), Worker);
    if ValidateFormData(name, email, subject, message).None? {
      forall e: FormError ensures RulePasses(e, name, email, subject, message) {
      }
    } else {
      var e := ValidateFormData(name, email, subject, message).value;
      ValidateReportsFirstFailure(e, name, email, subject, message);
    }
  }

  /** A missing or empty required field is reported before any length or
      pattern rule, whatever the other fields hold. */
  lemma MissingFieldReportedFirst(name: Option<string>, email: Option<string>,
                                  subject: Option<string>, message: Option<string>)
    requires !Truthy(name) || !Truthy(email) || !Truthy(message)
    ensures ValidateFormData(name, email, subject, message) == Some(MissingRequired)
  {
  }

  /** The subject is only limited when it is present and non-empty. */
  lemma SubjectOnlyCheckedWhenGiven(name: Option<string>, email: Option<string>, message: Option<string>)
    ensures ValidateFormData(name, email, None, message) == ValidateFormData(name, email, Some(""), message)
    ensures ValidateFormData(name, email, None, message) != Some(SubjectTooLong)
  {
  }

  /** Lengths count UTF-16 code units: five astral characters (such as an
      emoji) make a message of 10, long enough for the minimum. */
  lemma AstralCharactersCountTwice()
    ensures var m := "\U{1F600}\U{1F600}\U{1F600}\U{1F600}\U{1F600}";
      |m| == 5 && Utf16Length(m) == 10 && RulePasses(MessageTooShort, None, None, None, Some(m))
  {
    var m := "\U{1F600}\U{1F600}\U{1F600}\U{1F600}\U{1F600}";
    assert m[1..][1..][1..][1..][1..] == [];
  }

  // ---------------------------------------------------------------------
  // sanitizeInput
  // ---------------------------------------------------------------------

  /** `s.replace(/c/g, rep)` for a one-character pattern. */
  function ReplaceAll(s: string, c: char, rep: string): (r: string)
    ensures c !in rep ==> c !in r
    ensures c !in s ==> r == s
  {
    if s == [] then []
    else (if s[0] == c then rep else [s[0]]) + ReplaceAll(s[1..], c, rep)
  }

  lemma {:induction false} ReplaceAllConcat(a: string, b: string, c: char, rep: string)
    ensures ReplaceAll(a + b, c, rep) == ReplaceAll(a, c, rep) + ReplaceAll(b, c, rep)
  {
    if a == [] {
      assert a + b == b;
    } else {
      assert (a + b)[1..] == a[1..] + b;
      ReplaceAllConcat(a[1..], b, c, rep);
    }
  }

  /** The six `.replace` calls of `sanitizeInput`, in source order: each
      character and the entity that replaces it. */
  const Replacements: seq<(char, string)> :=
    [('&', "&amp;"), ('<', "&lt;"), ('>', "&gt;"), ('"', "&quot;"), ('\'', "&#x27;"), ('/', "&#x2F;")]

  /** The `.replace` calls from the `k`-th one on. */
  function ReplaceFrom(k: nat, s: string): string
    requires k <= |Replacements|
    decreases |Replacements| - k
  {
    if k == |Replacements| then s
    else ReplaceFrom(k + 1, ReplaceAll(s, Replacements[k].0, Replacements[k].1))
  }

  /** The whole chain. */
  function ReplaceChain(t: string): string
  {
    ReplaceFrom(0, t)
  }

  predicate Special(c: char)
  {
    c == '&' || c == '<' || c == '>' || c == '"' || c == '\'' || c == '/'
  }

  /** The entity that replaces one character. */
  function EscapeChar(c: char): string
  {
    if c == '&' then "&amp;"
    else if c == '<' then "&lt;"
    else if c == '>' then "&gt;"
    else if c == '"' then "&quot;"
    else if c == '\'' then "&#x27;"
    else if c == '/' then "&#x2F;"
    else [c]
  }

  /** Character-by-character escaping: the reference for the chain. */
  function EscapeHtml(t: string): (r: string)
    ensures forall i :: 0 <= i < |r| ==> r[i] != '<' && r[i] != '>' && r[i] != '"' && r[i] != '\'' && r[i] != '/'
  {
    if t == [] then [] else EscapeChar(t[0]) + EscapeHtml(t[1..])
  }

  lemma {:induction false} ReplaceFromDistributes(k: nat, a: string, b: string)
    requires k <= |Replacements|
    ensures ReplaceFrom(k, a + b) == ReplaceFrom(k, a) + ReplaceFrom(k, b)
    decreases |Replacements| - k
  {
    if k < |Replacements| {
      var x, rep := Replacements[k].0, Replacements[k].1;
      ReplaceAllConcat(a, b, x, rep);
      ReplaceFromDistributes(k + 1, ReplaceAll(a, x, rep), ReplaceAll(b, x, rep));
    }
  }

  /** Steps from `k` on leave alone a string holding none of their characters. */
  lemma {:induction false} ReplaceFromKeeps(k: nat, e: string)
    requires k <= |Replacements|
    requires forall j :: k <= j < |Replacements| ==> Replacements[j].0 !in e
    ensures ReplaceFrom(k, e) == e
    decreases |Replacements| - k
  {
    if k < |Replacements| {
      ReplaceFromKeeps(k + 1, e);
    }
  }

  /** The `k`-th entity is `EscapeChar` of the `k`-th character, and no
      later step's character occurs in it: '&' goes first. */
  lemma EntityFor(k: nat)
    requires k < |Replacements|
    ensures EscapeChar(Replacements[k].0) == Replacements[k].1
    ensures forall j :: k < j < |Replacements| ==> Replacements[j].0 !in Replacements[k].1
  {
  }

  lemma PlainChar(c: char)
    requires forall j :: 0 <= j < |Replacements| ==> Replacements[j].0 != c
    ensures !Special(c) && EscapeChar(c) == [c]
  {
    assert Replacements[0].0 != c && Replacements[1].0 != c && Replacements[2].0 != c;
    assert Replacements[3].0 != c && Replacements[4].0 != c && Replacements[5].0 != c;
  }

  lemma ReplaceAllSingle(c: char, x: char, rep: string)
    ensures ReplaceAll([c], x, rep) == if c == x then rep else [c]
  {
    assert [c][1..] == [];
  }

  /** On one character, steps `k..` give `EscapeChar` when no earlier step
      matched it: the matching step produces the entity and later steps
      find nothing to replace in it. */
  lemma {:induction false} ReplaceFromOneChar(k: nat, c: char)
    requires k <= |Replacements|
    requires forall j :: 0 <= j < k ==> Replacements[j].0 != c
    ensures ReplaceFrom(k, [c]) == EscapeChar(c)
    decreases |Replacements| - k
  {
    if k == |Replacements| {
      PlainChar(c);
    } else {
      var x, rep := Replacements[k].0, Replacements[k].1;
      ReplaceAllSingle(c, x, rep);
      if c == x {
        EntityFor(k);
        ReplaceFromKeeps(k + 1, rep);
      } else {
        ReplaceFromOneChar(k + 1, c);
      }
    }
  }

  /** The replace chain equals character-by-character escaping. */
  lemma {:induction false} ReplaceChainIsEscape(t: string)
    ensures ReplaceChain(t) == EscapeHtml(t)
  {
    if t != [] {
      assert t == [t[0]] + t[1..];
      ReplaceFromDistributes(0, [t[0]], t[1..]);
      ReplaceFromOneChar(0, t[0]);
      ReplaceChainIsEscape(t[1..]);
    }
  }

  /** The first entity (from the `k`-th on) that `s` starts with, or
      `|Replacements|` when there is none. */
  function EntityAt(s: string, k: nat): (j: nat)
    requires k <= |Replacements|
    ensures k <= j <= |Replacements|
    ensures j < |Replacements| ==> |Replacements[j].1| <= |s| && s[..|Replacements[j].1|] == Replacements[j].1
    decreases |Replacements| - k
  {
    if k == |Replacements| then k
    else
      var e := Replacements[k].1;
      if |e| <= |s| && s[..|e|] == e then k else EntityAt(s, k + 1)
  }

  /** Decoding of the six entities, left to right. */
  function Unescape(s: string): string
    decreases |s|
  {
    if s == [] then []
    else
      var j := EntityAt(s, 0);
      if j < |Replacements| then [Replacements[j].0] + Unescape(s[|Replacements[j].1|..])
      else [s[0]] + Unescape(s[1..])
  }

  /** No entity is a prefix of another one followed by anything. */
  lemma EntitiesPrefixFree(j: nat, k: nat, rest: string)
    requires j < |Replacements| && k < |Replacements| && j != k
    ensures var s := Replacements[k].1 + rest;
      !(|Replacements[j].1| <= |s| && s[..|Replacements[j].1|] == Replacements[j].1)
  {
    var s := Replacements[k].1 + rest;
    var ej := Replacements[j].1;
    var ek := Replacements[k].1;
    // The entities differ at position 1, or (the two numeric ones) at 4.
    var i := if ej[1] != ek[1] then 1 else 4;
    assert i < |ej| && i < |ek| && ej[i] != ek[i] && s[i] == ek[i];
  }

  /** `s` starts with the `i`-th entity. */
  predicate Starts(s: string, i: nat)
    requires i < |Replacements|
  {
    |Replacements[i].1| <= |s| && s[..|Replacements[i].1|] == Replacements[i].1
  }

  /** The lookup finds `j` when it is the first entity from `k` on that
      `s` starts with (or `|Replacements|` when none from `k` on does). */
  lemma {:induction false} EntityAtFirst(s: string, k: nat, j: nat)
    requires k <= j <= |Replacements|
    requires forall i :: k <= i < j ==> !Starts(s, i)
    requires j < |Replacements| ==> Starts(s, j)
    ensures EntityAt(s, k) == j
    decreases j - k
  {
    if k < j {
      assert !Starts(s, k);
      EntityAtFirst(s, k + 1, j);
    }
  }

  /** An entity at the front decodes to its character. */
  lemma EntityFront(j: nat, rest: string)
    requires j < |Replacements|
    ensures Unescape(Replacements[j].1 + rest) == [Replacements[j].0] + Unescape(rest)
  {
    var s := Replacements[j].1 + rest;
    forall i | 0 <= i < j ensures !Starts(s, i) {
      EntitiesPrefixFree(i, j, rest);
    }
    assert Starts(s, j);
    EntityAtFirst(s, 0, j);
    assert s[|Replacements[j].1|..] == rest;
  }

  /** A character that is not '&' decodes to itself. */
  lemma PlainFront(c: char, rest: string)
    requires c != '&'
    ensures Unescape([c] + rest) == [c] + Unescape(rest)
  {
    var s := [c] + rest;
    forall i | 0 <= i < |Replacements| ensures !Starts(s, i) {
      assert Replacements[i].1[0] == '&';
    }
    EntityAtFirst(s, 0, |Replacements|);
    assert s[1..] == rest;
  }

  /** Decoding one entity (or one plain character) from the front. */
  lemma UnescapeFront(c: char, rest: string)
    ensures Unescape(EscapeChar(c) + rest) == [c] + Unescape(rest)
  {
    if j :| 0 <= j < |Replacements| && Replacements[j].0 == c {
      EntityFor(j);
      EntityFront(j, rest);
    } else {
      PlainChar(c);
      PlainFront(c, rest);
    }
  }

  /** Escaping loses nothing: decoding the entities gives the input back. */
  lemma {:induction false} UnescapeEscape(t: string)
    ensures Unescape(EscapeHtml(t)) == t
  {
    if t != [] {
      UnescapeFront(t[0], EscapeHtml(t[1..]));
      UnescapeEscape(t[1..]);
      assert t == [t[0]] + t[1..];
    }
  }

  /** `sanitizeInput(input)`. */
  function SanitizeInput(input: Option<string>): (r: string)
    ensures !Truthy(input) ==> r == ""
    ensures Truthy(input) ==> r == EscapeHtml(Trim(input.value))
  {
    if !Truthy(input) then ""
    else
      ReplaceChainIsEscape(Trim(input.value));
      ReplaceChain(Trim(input.value))
  }

  /** What `sanitizeInput` promises: no raw markup character survives, and
      the entity substitutions undo to the trimmed input exactly. */
  lemma SanitizeRoundTrip(input: Option<string>)
    requires Truthy(input)
    ensures Unescape(SanitizeInput(input)) == Trim(input.value)
    ensures forall i :: 0 <= i < |SanitizeInput(input)| ==> !Special(SanitizeInput(input)[i]) || SanitizeInput(input)[i] == '&'
  {
    UnescapeEscape(Trim(input.value));
  }

  // ---------------------------------------------------------------------
  // handleRequest and jsonResponse
  // ---------------------------------------------------------------------

  /** Environment variables; an unset or empty one falls back to its default. */
  datatype Env = Env(recipientEmail: Option<string>, allowedOrigin: Option<string>, fromEmail: Option<string>)

  /** The parsed JSON body. */
  datatype FormData = FormData(name: Option<string>, email: Option<string>, subject: Option<string>,
                               service: Option<string>, message: Option<string>)

  /** An incoming request: method, `Origin` header, and the body as
      `request.json()` sees it (`None` when parsing throws). */
  datatype Request = Request(verb: string, origin: Option<string>, body: Option<FormData>)

  /** The escaped fields handed to `sendEmail`. */
  datatype Submission = Submission(name: string, email: string, subject: string, service: string, message: string)

  /** One call of `sendEmail(sanitizedData, RECIPIENT_EMAIL, FROM_EMAIL)`. */
  datatype Mail = Mail(data: Submission, recipient: string, sender: string)

  /** What `sendEmail` resolves to. */
  datatype SendResult = Sent | SendFailed(error: string)

  /** The JSON payloads the handler writes (their exact text is not modelled,
      except the error strings). */
  datatype Body =
    | NoBody
    | ApiStatus
    | MethodNotAllowed
    | Forbidden
    | ErrorMessage(error: string)
    | Delivered

  datatype Response = Response(status: int, headers: map<string, string>, body: Body)

  const AllowOriginHeader := "Access-Control-Allow-Origin"
  const ContentTypeHeader := "Content-Type"
  const DefaultSubject := "Contact Form Submission"
  const DefaultService := "Not specified"
  const ProcessingError := "An error occurred processing your request"

  function AllowedOrigin(env: Env): string
  {
    OrString(env.allowedOrigin, "*")
  }

  function CorsHeaders(allowedOrigin: string): map<string, string>
  {
    map[AllowOriginHeader := allowedOrigin,
        "Access-Control-Allow-Methods" := "POST, OPTIONS, GET",
        "Access-Control-Allow-Headers" := "Content-Type",
        "Access-Control-Max-Age" := "86400"]
  }

  /** `jsonResponse(data, status, headers)`: the given headers with
      Content-Type forced to JSON. */
  function JsonResponse(body: Body, status: int, headers: map<string, string>): (r: Response)
    ensures r.status == status && r.body == body
    ensures r.headers.Keys == headers.Keys + {ContentTypeHeader}
    ensures r.headers[ContentTypeHeader] == "application/json"
    ensures forall k :: k in headers && k != ContentTypeHeader ==> r.headers[k] == headers[k]
  {
    Response(status, headers[ContentTypeHeader := "application/json"], body)
  }

  /** The `sanitizedData` record, with the subject and service defaults. */
  function Sanitize(data: FormData): Submission
  {
    Submission(SanitizeInput(data.name),
               SanitizeInput(data.email),
               SanitizeInput(Some(OrString(data.subject, DefaultSubject))),
               SanitizeInput(Some(OrString(data.service, DefaultService))),
               SanitizeInput(data.message))
  }

  /** The mail handed to `sendEmail`: the sanitized fields, with the
      recipient and sender falling back to their defaults. */
  function OutgoingMail(data: FormData, env: Env): Mail
  {
    Mail(Sanitize(data), OrString(env.recipientEmail, "your-email@example.com"),
         OrString(env.fromEmail, "noreply@example.com"))
  }

  /** `origin && origin !== ALLOWED_ORIGIN` under a non-wildcard setting. */
  predicate OriginRejected(req: Request, allowed: string)
  {
    allowed != "*" && Truthy(req.origin) && req.origin.value != allowed
  }

  /** Status and payload of every branch of `handleRequest` that answers
      through `jsonResponse` (all but the preflight). */
  function JsonOutcome(req: Request, env: Env, send: Mail -> SendResult): (int, Body)
  {
    var allowed := AllowedOrigin(env);
    if req.verb == "GET" then (200, ApiStatus)
    else if req.verb != "POST" then (405, MethodNotAllowed)
    else if OriginRejected(req, allowed) then (403, Forbidden)
    else if req.body.None? then (500, ErrorMessage(ProcessingError))
    else
      var data := req.body.value;
      var invalid := ValidateFormData(data.name, data.email, data.subject, data.message);
      if invalid.Some? then (400, ErrorMessage(invalid.value.Message()))
      else
        match send(OutgoingMail(data, env))
        case SendFailed(err) => (500, ErrorMessage("Failed to send email: " + err))
        case Sent => (200, Delivered)
  }

  /** `handleRequest(request, env)`. */
  function HandleRequest(req: Request, env: Env, send: Mail -> SendResult): Response
  {
    var cors := CorsHeaders(AllowedOrigin(env));
    if req.verb == "OPTIONS" then Response(204, cors, NoBody)
    else
      var (status, body) := JsonOutcome(req, env, send);
      JsonResponse(body, status, cors)
  }

  /** The status code and payload of every request, rule by rule. */
  lemma HandleRequestStatus(req: Request, env: Env, send: Mail -> SendResult)
    ensures var r := HandleRequest(req, env, send);
      var cors := CorsHeaders(AllowedOrigin(env));
      && (req.verb == "OPTIONS" ==> r == Response(204, cors, NoBody))
      && (req.verb == "GET" ==> r == JsonResponse(ApiStatus, 200, cors))
      && (req.verb !in {"OPTIONS", "GET", "POST"} ==> r == JsonResponse(MethodNotAllowed, 405, cors))
      && (req.verb == "POST" && OriginRejected(req, AllowedOrigin(env)) ==> r == JsonResponse(Forbidden, 403, cors))
      && (req.verb == "POST" && !OriginRejected(req, AllowedOrigin(env)) && req.body.None? ==>
            r == JsonResponse(ErrorMessage(ProcessingError), 500, cors))
      && (req.verb == "POST" && !OriginRejected(req, AllowedOrigin(env)) && req.body.Some? ==>
            var d := req.body.value;
            var invalid := ValidateFormData(d.name, d.email, d.subject, d.message);
            var sent := send(OutgoingMail(d, env));
            && (invalid.Some? ==> r == JsonResponse(ErrorMessage(invalid.value.Message()), 400, cors))
            && (invalid.None? && sent == Sent ==> r == JsonResponse(Delivered, 200, cors))
            && (invalid.None? && sent.SendFailed? ==>
                  r == JsonResponse(ErrorMessage("Failed to send email: " + sent.error), 500, cors)))
      && r.status in {200, 204, 400, 403, 405, 500}
  {
  }

  /** A wildcard setting never forbids a request. */
  lemma WildcardNeverForbids(req: Request, env: Env, send: Mail -> SendResult)
    requires AllowedOrigin(env) == "*"
    ensures HandleRequest(req, env, send).status != 403
  {
  }

  /** Every response carries the CORS headers; every response but the 204
      preflight is JSON, and the preflight carries nothing else. */
  lemma EveryResponseCarriesCors(req: Request, env: Env, send: Mail -> SendResult)
    ensures var r := HandleRequest(req, env, send);
      && AllowOriginHeader in r.headers
      && r.headers[AllowOriginHeader] == AllowedOrigin(env)
      && (forall k :: k in CorsHeaders(AllowedOrigin(env)) ==> k in r.headers && r.headers[k] == CorsHeaders(AllowedOrigin(env))[k])
      && (r.status == 204 <==> r.headers == CorsHeaders(AllowedOrigin(env)))
      && (r.status != 204 ==> ContentTypeHeader in r.headers && r.headers[ContentTypeHeader] == "application/json")
  {
    var cors := CorsHeaders(AllowedOrigin(env));
    assert ContentTypeHeader !in cors;
    var r := HandleRequest(req, env, send);
    if req.verb != "OPTIONS" {
      var (status, body) := JsonOutcome(req, env, send);
      assert status != 204;
      assert r == JsonResponse(body, status, cors);
      assert r.headers != cors;
    }
  }

  /** A 200 to a POST means the mail was handed over and accepted, which
      happens only for a submission that passed validation; its fields are
      escaped and the subject and service fall back to their defaults. */
  lemma DeliveredOnlyAfterValidation(req: Request, env: Env, send: Mail -> SendResult)
    requires req.verb == "POST"
    requires HandleRequest(req, env, send).status == 200
    ensures req.body.Some? && !OriginRejected(req, AllowedOrigin(env))
    ensures var d := req.body.value;
      && ValidateFormData(d.name, d.email, d.subject, d.message).None?
      && send(OutgoingMail(d, env)) == Sent
  {
  }

  /** A non-empty value with no white space at either end is escaped and
      read back unchanged. */
  lemma UnpaddedReadsBack(s: string)
    requires |s| > 0 && !IsWhiteSpace(s[0]) && !IsWhiteSpace(s[|s| - 1])
    ensures Unescape(SanitizeInput(Some(s))) == s
  {
    assert LeadingWhiteSpace(s) == 0;
    assert TrailingWhiteSpace(s) == 0;
    SanitizeRoundTrip(Some(s));
  }

  /** The default subject reads back unchanged after sanitizing. */
  lemma DefaultSubjectReadsBack()
    ensures Unescape(SanitizeInput(Some(DefaultSubject))) == DefaultSubject
  {
    assert DefaultSubject[0] == 'C' && DefaultSubject[|DefaultSubject| - 1] == 'n';
    UnpaddedReadsBack(DefaultSubject);
  }

  /** The default service reads back unchanged after sanitizing. */
  lemma DefaultServiceReadsBack()
    ensures Unescape(SanitizeInput(Some(DefaultService))) == DefaultService
  {
    assert DefaultService[0] == 'N' && DefaultService[|DefaultService| - 1] == 'd';
    UnpaddedReadsBack(DefaultService);
  }

  /** Defaults of the optional fields, read back through the escaping. */
  lemma SanitizeDefaults(data: FormData)
    ensures !Truthy(data.subject) ==> Unescape(Sanitize(data).subject) == DefaultSubject
    ensures !Truthy(data.service) ==> Unescape(Sanitize(data).service) == DefaultService
    ensures Truthy(data.subject) ==> Unescape(Sanitize(data).subject) == Trim(data.subject.value)
  {
    if Truthy(data.subject) {
      SanitizeRoundTrip(data.subject);
    } else {
      DefaultSubjectReadsBack();
    }
    if !Truthy(data.service) {
      DefaultServiceReadsBack();
    }
  }
}
