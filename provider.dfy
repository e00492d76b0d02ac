/**
  `SmsRuProvider`: the operations of the gateway client. Each one validates
  its arguments, fetches a fresh token, builds the authentication fragment
  and the request, sends it, and classifies the answer. What the provider
  cannot compute itself (the clock, SHA-512, the Unix-time conversion, the
  answers of the HTTP gateway and of the mail server) comes in through an
  `Environment`; each operation returns the requests it issued, in order,
  with its result.
 */
module Provider {
  import opened Wrappers
  import Text
  import opened Parameters
  import opened Configuration
  import opened Auth
  import opened Responses
  import opened Requests

  const TokenUrl: string := "http://sms.ru/auth/get_token"
  const SendUrl: string := "http://sms.ru/sms/send"
  const StatusUrl: string := "http://sms.ru/sms/status"
  const CostUrl: string := "http://sms.ru/sms/cost"
  const BalanceUrl: string := "http://sms.ru/my/balance"
  const LimitUrl: string := "http://sms.ru/my/limit"
  const SendersUrl: string := "http://sms.ru/my/senders"
  const AuthUrl: string := "http://sms.ru/auth/check"
  const StoplistAddUrl: string := "http://sms.ru/stoplist/add"
  const StoplistDelUrl: string := "http://sms.ru/stoplist/del"
  const StoplistGetUrl: string := "http://sms.ru/stoplist/get"

  /** Largest recipient list `Send` accepts; `SendByEmail` accepts at most `MaxMailRecipients`. */
  const MaxRecipients: int := 100
  const MaxMailRecipients: int := 50
  /** `SmtpClient.Timeout`, in milliseconds. */
  const SmtpTimeout: int := 20000

  /** The argument exceptions thrown before anything is sent, with their parameter name. */
  datatype ArgumentError = ArgumentNull(paramName: string) | ArgumentOutOfRange(paramName: string)

  datatype SmtpSession = SmtpSession(host: string, port: int, enableSsl: bool,
                                     userName: string, password: string, timeout: int)
  datatype MailMessage = MailMessage(from: string, to: string, subject: string, body: string)

  /** A form POST, a GET of a link, or an SMTP submission. */
  datatype Request =
    | Post(url: string, body: string)
    | Get(link: string)
    | Smtp(session: SmtpSession, message: MailMessage)

  /** The outside world: the clock, SHA-512 of the UTF-8 bytes of a string, `TimeHelper.GetUnixTime`,
      the gateway's answer to each HTTP request, and whether the mail server accepts a submission. */
  datatype Environment = Environment(
    now: DateTime,
    sha512: string -> Digest,
    unixTime: DateTime -> int,
    server: Request -> Reply,
    mailer: Request -> bool)

  /** The requests an operation issued, in order, and what it returned. */
  datatype Exchange<T> = Exchange(requests: seq<Request>, result: T)

  const TokenRequest: Request := Get(TokenUrl)

  /** `GetToken()`: a fresh token per operation, `""` when the token endpoint fails. */
  function FetchToken(env: Environment): (token: string)
    ensures env.server(TokenRequest).Body? ==> token == env.server(TokenRequest).text
    ensures !env.server(TokenRequest).Body? ==> token == ""
  {
    TokenReply(env.server(TokenRequest))
  }

  /** What a GET operation reads: a link without a url (an unnamed authentication mode) is not
      an absolute URI, so creating the request throws before anything is sent. */
  function LinkReply(env: Environment, authType: AuthenticationType, link: string): (reply: Reply)
    ensures authType.OtherValue? ==> reply == Thrown
    ensures !authType.OtherValue? ==> reply == env.server(Get(link))
  {
    if authType.OtherValue? then Thrown else env.server(Get(link))
  }

  /** The requests a GET operation issues: the token request, then the link unless it is rejected. */
  function LinkRequests(authType: AuthenticationType, link: string): (requests: seq<Request>)
    ensures 1 <= |requests| <= 2 && requests[0] == TokenRequest
    ensures |requests| == 2 <==> !authType.OtherValue?
    ensures |requests| == 2 ==> requests[1] == Get(link)
  {
    if authType.OtherValue? then [TokenRequest] else [TokenRequest, Get(link)]
  }

  // ---------------------------------------------------------------------------
  // The authentication fragment, as each operation computes it
  // ---------------------------------------------------------------------------

  /** Both digests are computed, then three independent `if`s pick the fragment; an unnamed
      mode matches none of them and leaves it empty. */
  method AuthenticationFragment(cfg: SmsRuConfiguration, authType: AuthenticationType, token: string,
                                sha512: string -> Digest) returns (auth: string)
    ensures auth == AuthFragment(cfg, authType, token, sha512)
  {
    var hash := GetSHA512Hash(sha512, cfg.Password + token);
    hash := Text.Lower(hash);
    var hashWithApiId := GetSHA512Hash(sha512, cfg.Password + token + cfg.ApiId);
    hashWithApiId := Text.Lower(hashWithApiId);
    AuthFragmentShape(cfg, authType, token, sha512);
    auth := "";
    if authType == Simple {
      auth := "api_id=" + cfg.ApiId;
    }
    if authType == Strong {
      auth := "login=" + cfg.Login + "&token=" + token + "&sha512=" + hash;
    }
    if authType == StrongApi {
      auth := "login=" + cfg.Login + "&token=" + token + "&sha512=" + hashWithApiId;
    }
  }

  /** The same selection for the GET operations, with `<url>?` in front of the fragment. */
  method AuthenticationLink(url: string, cfg: SmsRuConfiguration, authType: AuthenticationType,
                            token: string, sha512: string -> Digest) returns (auth: string)
    ensures auth == AuthLink(url, cfg, authType, token, sha512)
  {
    var fragment := AuthenticationFragment(cfg, authType, token, sha512);
    auth := "";
    if !authType.OtherValue? {
      auth := url + "?" + fragment;
    }
  }

  // ---------------------------------------------------------------------------
  // Sending
  // ---------------------------------------------------------------------------

  /** `Send(from, to, text, dateTime, authType)`. An empty or oversized recipient list is rejected
      before anything is sent; otherwise the body is posted to `sms/send` and the answer is returned
      when its first line is `MessageAccepted`, `""` when it is not or anything throws, and `null`
      when no response object comes back. */
  method Send(cfg: SmsRuConfiguration, from: string, to: seq<string>, text: string, dateTime: DateTime,
              authType: AuthenticationType, env: Environment)
    returns (r: Result<Exchange<Option<string>>, ArgumentError>)
    ensures |to| < 1 ==> r == Err(ArgumentNull("to"))
    ensures |to| > MaxRecipients ==> r == Err(ArgumentOutOfRange("to"))
    ensures 1 <= |to| <= MaxRecipients ==>
      var body := FormBody(cfg, authType, FetchToken(env), env.sha512,
                           SendFields(to, text, from, cfg, Scheduled(dateTime, env.now), env.unixTime));
      r == Ok(Exchange([TokenRequest, Post(SendUrl, body)], SendReply(env.server(Post(SendUrl, body)))))
  {
    assert "&to=" == "&" + "to" + "=" && "&text=" == "&" + "text" + "=" && "&from=" == "&" + "from" + "=";
    if |to| < 1 {
      return Err(ArgumentNull("to"));
    }
    if |to| > MaxRecipients {
      return Err(ArgumentOutOfRange("to"));
    }
    var date := dateTime;
    if date == MinValue {
      date := env.now;
    }
    var recipients := JoinRecipients(to);
    var token := FetchToken(env);
    var auth := AuthenticationFragment(cfg, authType, token, env.sha512);
    var parameters := auth + "&to=" + recipients + "&text=" + text + "&from=" + from;
    ghost var fixed := [Param("to", recipients), Param("text", text), Param("from", from)];
    FixedFields(auth, fixed, "&to=", "&text=", "&from=");
    parameters := AppendOptionalParameters(parameters, cfg, date, env.unixTime);
    BodyOfFields(auth, fixed, OptionalParams(cfg, date, env.unixTime));
    var request := Post(SendUrl, parameters);
    r := Ok(Exchange([TokenRequest, request], SendReply(env.server(request))));
  }

  /** `SendMultiple(from, toAndText, dateTime, authType)`: the same flow with one `multi[...]` pair
      per dictionary entry instead of `to` and `text`. */
  method SendMultiple(cfg: SmsRuConfiguration, from: string, toAndText: seq<(string, string)>,
                      dateTime: DateTime, authType: AuthenticationType, env: Environment)
    returns (r: Result<Exchange<Option<string>>, ArgumentError>)
    ensures |toAndText| < 1 ==> r == Err(ArgumentNull("to"))
    ensures |toAndText| > MaxRecipients ==> r == Err(ArgumentOutOfRange("to"))
    ensures 1 <= |toAndText| <= MaxRecipients ==>
      var body := FormBody(cfg, authType, FetchToken(env), env.sha512,
                           SendMultipleFields(from, toAndText, cfg, Scheduled(dateTime, env.now), env.unixTime));
      r == Ok(Exchange([TokenRequest, Post(SendUrl, body)], SendReply(env.server(Post(SendUrl, body)))))
  {
    if |toAndText| < 1 {
      return Err(ArgumentNull("to"));
    }
    if |toAndText| > MaxRecipients {
      return Err(ArgumentOutOfRange("to"));
    }
    var date := dateTime;
    if date == MinValue {
      date := env.now;
    }
    var recipients := MultiRecipients(toAndText);
    var token := FetchToken(env);
    var auth := AuthenticationFragment(cfg, authType, token, env.sha512);
    var parameters := auth + "&from=" + from + recipients;
    ghost var multi := MultiParams(toAndText);
    FromThenMulti(auth, from, multi, recipients);
    parameters := AppendOptionalParameters(parameters, cfg, date, env.unixTime);
    BodyOfFields(auth, [Param("from", from)] + multi, OptionalParams(cfg, date, env.unixTime));
    var request := Post(SendUrl, parameters);
    r := Ok(Exchange([TokenRequest, request], SendReply(env.server(request))));
  }

  /** `SendByEmail(to, text)`: one mail to the gateway address, from the configured address, with
      the comma-joined recipients as subject and the text as body, over the configured SMTP server.
      No token is fetched. */
  method SendByEmail(cfg: SmsRuConfiguration, to: seq<string>, text: string, env: Environment)
    returns (r: Result<Exchange<SendCode>, ArgumentError>)
    ensures |to| < 1 ==> r == Err(ArgumentNull("to"))
    ensures |to| > MaxMailRecipients ==> r == Err(ArgumentOutOfRange("to"))
    ensures 1 <= |to| <= MaxMailRecipients ==>
      var mail := Smtp(SmtpSession(cfg.SmtpServer, cfg.SmtpPort, cfg.SmtpUseSSL, cfg.SmtpLogin,
                                   cfg.SmtpPassword, SmtpTimeout),
                       MailMessage(cfg.Email, cfg.EmailToSmsGateEmail, Text.Join(to, ','), text));
      r == Ok(Exchange([mail], MailReply(env.mailer(mail))))
  {
    if |to| < 1 {
      return Err(ArgumentNull("to"));
    }
    if |to| > MaxMailRecipients {
      return Err(ArgumentOutOfRange("to"));
    }
    var recipients := JoinRecipients(to);
    var session := SmtpSession(cfg.SmtpServer, cfg.SmtpPort, cfg.SmtpUseSSL, cfg.SmtpLogin,
                               cfg.SmtpPassword, SmtpTimeout);
    var message := MailMessage(cfg.Email, cfg.EmailToSmsGateEmail, recipients, text);
    var mail := Smtp(session, message);
    r := Ok(Exchange([mail], MailReply(env.mailer(mail))));
  }

  // ---------------------------------------------------------------------------
  // Queries
  // ---------------------------------------------------------------------------

  /** `CheckStatus(id, authType)`: the status code on the first line of the answer to
      `sms/status?<auth>&id=<id>`. */
  method CheckStatus(cfg: SmsRuConfiguration, id: string, authType: AuthenticationType, env: Environment)
    returns (r: Exchange<StatusCode>)
    ensures var link := QueryLink(StatusUrl, cfg, authType, FetchToken(env), env.sha512, [Param("id", id)]);
      r == Exchange(LinkRequests(authType, link), StatusReply(LinkReply(env, authType, link)))
  {
    assert "&id=" == "&" + "id" + "=";
    var token := FetchToken(env);
    var auth := AuthenticationLink(StatusUrl, cfg, authType, token, env.sha512);
    var link := auth + "&id=" + id;
    AppendFirst(auth, "&id=", Param("id", id));
    if authType.OtherValue? {
      r := Exchange([TokenRequest], StatusReply(Thrown));
    } else {
      r := Exchange([TokenRequest, Get(link)], StatusReply(env.server(Get(link))));
    }
  }

  /** `CheckCost(to, text, authType)`: the answer to `sms/cost?<auth>&to=<to>&text=<text>` when its
      first line is the cost operation's `Done` code, `""` otherwise. */
  method CheckCost(cfg: SmsRuConfiguration, to: string, text: string, authType: AuthenticationType,
                   env: Environment) returns (r: Exchange<string>)
    ensures var link := QueryLink(CostUrl, cfg, authType, FetchToken(env), env.sha512,
                                  [Param("to", to), Param("text", text)]);
      r == Exchange(LinkRequests(authType, link), ReadReply(LinkReply(env, authType, link), CostDone))
  {
    assert "&to=" == "&" + "to" + "=" && "&text=" == "&" + "text" + "=";
    var token := FetchToken(env);
    var auth := AuthenticationLink(CostUrl, cfg, authType, token, env.sha512);
    var link := auth + "&to=" + to + "&text=" + text;
    AppendFirst(auth, "&to=", Param("to", to));
    AppendPair(auth, [Param("to", to)], "&text=", Param("text", text));
    assert [Param("to", to)] + [Param("text", text)] == [Param("to", to), Param("text", text)];
    if authType.OtherValue? {
      r := Exchange([TokenRequest], ReadReply(Thrown, CostDone));
    } else {
      r := Exchange([TokenRequest, Get(link)], ReadReply(env.server(Get(link)), CostDone));
    }
  }

  /** The shared shape of the read operations whose link is the authentication link alone. */
  method AuthorizedRead(url: string, done: int, cfg: SmsRuConfiguration, authType: AuthenticationType,
                        env: Environment) returns (r: Exchange<string>)
    ensures var link := AuthLink(url, cfg, authType, FetchToken(env), env.sha512);
      r == Exchange(LinkRequests(authType, link), ReadReply(LinkReply(env, authType, link), done))
  {
    var token := FetchToken(env);
    var link := AuthenticationLink(url, cfg, authType, token, env.sha512);
    if authType.OtherValue? {
      r := Exchange([TokenRequest], ReadReply(Thrown, done));
    } else {
      r := Exchange([TokenRequest, Get(link)], ReadReply(env.server(Get(link)), done));
    }
  }

  /** `CheckBalance(authType)`: the answer to `my/balance?<auth>` when its first line is `Done`. */
  method CheckBalance(cfg: SmsRuConfiguration, authType: AuthenticationType, env: Environment)
    returns (r: Exchange<string>)
    ensures var link := AuthLink(BalanceUrl, cfg, authType, FetchToken(env), env.sha512);
      r == Exchange(LinkRequests(authType, link), ReadReply(LinkReply(env, authType, link), BalanceDone))
  {
    r := AuthorizedRead(BalanceUrl, BalanceDone, cfg, authType, env);
  }

  /** `CheckLimit(authType)`: the answer to `my/limit?<auth>` when its first line is `Done`. */
  method CheckLimit(cfg: SmsRuConfiguration, authType: AuthenticationType, env: Environment)
    returns (r: Exchange<string>)
    ensures var link := AuthLink(LimitUrl, cfg, authType, FetchToken(env), env.sha512);
      r == Exchange(LinkRequests(authType, link), ReadReply(LinkReply(env, authType, link), LimitDone))
  {
    r := AuthorizedRead(LimitUrl, LimitDone, cfg, authType, env);
  }

  /** `CheckSenders(authType)`: the answer to `my/senders?<auth>` when its first line is `Done`. */
  method CheckSenders(cfg: SmsRuConfiguration, authType: AuthenticationType, env: Environment)
    returns (r: Exchange<string>)
    ensures var link := AuthLink(SendersUrl, cfg, authType, FetchToken(env), env.sha512);
      r == Exchange(LinkRequests(authType, link), ReadReply(LinkReply(env, authType, link), SendersDone))
  {
    r := AuthorizedRead(SendersUrl, SendersDone, cfg, authType, env);
  }

  /** `StoplistGet(authType)`: the answer to `stoplist/get?<auth>` when its first line is `Done`. */
  method StoplistGet(cfg: SmsRuConfiguration, authType: AuthenticationType, env: Environment)
    returns (r: Exchange<string>)
    ensures var link := AuthLink(StoplistGetUrl, cfg, authType, FetchToken(env), env.sha512);
      r == Exchange(LinkRequests(authType, link), ReadReply(LinkReply(env, authType, link), StoplistGetDone))
  {
    r := AuthorizedRead(StoplistGetUrl, StoplistGetDone, cfg, authType, env);
  }

  /** `AuthCheck(authType)`: the code on the first line of the answer to `auth/check?<auth>`. */
  method AuthCheck(cfg: SmsRuConfiguration, authType: AuthenticationType, env: Environment)
    returns (r: Exchange<AuthCode>)
    ensures var link := AuthLink(AuthUrl, cfg, authType, FetchToken(env), env.sha512);
      r == Exchange(LinkRequests(authType, link), AuthReply(LinkReply(env, authType, link)))
  {
    var token := FetchToken(env);
    var link := AuthenticationLink(AuthUrl, cfg, authType, token, env.sha512);
    if authType.OtherValue? {
      r := Exchange([TokenRequest], AuthReply(Thrown));
    } else {
      r := Exchange([TokenRequest, Get(link)], AuthReply(env.server(Get(link))));
    }
  }

  // ---------------------------------------------------------------------------
  // Stop list
  // ---------------------------------------------------------------------------

  /** `StoplistAdd(phone, text, authType)`: an empty note is rejected before anything is sent;
      otherwise true exactly when the trimmed answer's first line is the add operation's `Done`. */
  method StoplistAdd(cfg: SmsRuConfiguration, phone: string, text: string, authType: AuthenticationType,
                     env: Environment) returns (r: Result<Exchange<bool>, ArgumentError>)
    ensures text == "" ==> r == Err(ArgumentNull("text"))
    ensures text != "" ==>
      var body := FormBody(cfg, authType, FetchToken(env), env.sha512,
                           [Param("stoplist_phone", phone), Param("stoplist_text", text)]);
      r == Ok(Exchange([TokenRequest, Post(StoplistAddUrl, body)],
                       StoplistReply(env.server(Post(StoplistAddUrl, body)), StoplistAddDone)))
  {
    assert "&stoplist_phone=" == "&" + "stoplist_phone" + "="
           && "&stoplist_text=" == "&" + "stoplist_text" + "=";
    if text == "" {
      return Err(ArgumentNull("text"));
    }
    var token := FetchToken(env);
    var auth := AuthenticationFragment(cfg, authType, token, env.sha512);
    var parameters := auth + "&stoplist_phone=" + phone + "&stoplist_text=" + text;
    AppendFirst(auth, "&stoplist_phone=", Param("stoplist_phone", phone));
    AppendPair(auth, [Param("stoplist_phone", phone)], "&stoplist_text=", Param("stoplist_text", text));
    assert [Param("stoplist_phone", phone)] + [Param("stoplist_text", text)]
      == [Param("stoplist_phone", phone), Param("stoplist_text", text)];
    var request := Post(StoplistAddUrl, parameters);
    r := Ok(Exchange([TokenRequest, request], StoplistReply(env.server(request), StoplistAddDone)));
  }

  /** `StoplistDelete(phone, authType)`: true exactly when the trimmed answer's first line is the
      delete operation's `Done`. */
  method StoplistDelete(cfg: SmsRuConfiguration, phone: string, authType: AuthenticationType,
                        env: Environment) returns (r: Exchange<bool>)
    ensures var body := FormBody(cfg, authType, FetchToken(env), env.sha512, [Param("stoplist_phone", phone)]);
      r == Exchange([TokenRequest, Post(StoplistDelUrl, body)],
                    StoplistReply(env.server(Post(StoplistDelUrl, body)), StoplistDeleteDone))
  {
    assert "&stoplist_phone=" == "&" + "stoplist_phone" + "=";
    var token := FetchToken(env);
    var auth := AuthenticationFragment(cfg, authType, token, env.sha512);
    var parameters := auth + "&stoplist_phone=" + phone;
    AppendFirst(auth, "&stoplist_phone=", Param("stoplist_phone", phone));
    var request := Post(StoplistDelUrl, parameters);
    r := Exchange([TokenRequest, request], StoplistReply(env.server(request), StoplistDeleteDone));
  }

  // ---------------------------------------------------------------------------
  // Proof steps for the bodies
  // ---------------------------------------------------------------------------

  /** The fragment followed by three `&<key>=<value>` texts, as the format string writes them, is the
      fragment followed by the three pairs. */
  lemma FixedFields(auth: string, fixed: seq<Param>, p1: string, p2: string, p3: string)
    requires |fixed| == 3
    requires p1 == "&" + fixed[0].key + "=" && p2 == "&" + fixed[1].key + "=" && p3 == "&" + fixed[2].key + "="
    ensures auth + p1 + fixed[0].value + p2 + fixed[1].value + p3 + fixed[2].value == auth + Prefixed(fixed)
  {
    AppendFirst(auth, p1, fixed[0]);
    AppendPair(auth, [fixed[0]], p2, fixed[1]);
    AppendPair(auth, [fixed[0]] + [fixed[1]], p3, fixed[2]);
    assert [fixed[0]] + [fixed[1]] + [fixed[2]] == fixed;
  }

  /** The fragment, then `&from=` and the sender, then the batch text, is the fragment followed by the
      `from` pair and the `multi[...]` pairs. */
  lemma FromThenMulti(auth: string, from: string, multi: seq<Param>, recipients: string)
    requires recipients == Prefixed(multi)
    ensures auth + "&from=" + from + recipients == auth + Prefixed([Param("from", from)] + multi)
  {
    AppendFirst(auth, "&from=", Param("from", from));
    PrefixedConcat([Param("from", from)], multi);
    Text.Regroup(auth, "&from=", from, recipients);
    Text.Regroup(auth, Prefixed([Param("from", from)]), recipients, "");
  }

  /** The fixed pairs followed by the optional ones make up the body. */
  lemma BodyOfFields(auth: string, fixed: seq<Param>, optional: seq<Param>)
    ensures auth + Prefixed(fixed) + Prefixed(optional) == auth + Prefixed(fixed + optional)
  {
    PrefixedConcat(fixed, optional);
  }
}
