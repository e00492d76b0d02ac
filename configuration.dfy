/**
  `SmsRuConfiguration`: the credentials and SMTP settings a provider holds
  read-only. Every field is set once by the constructor; the one derived field
  is the address of the e-mail-to-SMS gateway, `apiId + "@sms.ru"`.
 */
module Configuration {

  /** The mail domain of the e-mail-to-SMS gateway. */
  const GateDomain: string := "@sms.ru"

  /** The record's fields are named after its read-only properties (`SmtpUseSSL`
      holds the constructor's `smtpUsrSSL` flag). */
  datatype SmsRuConfiguration = SmsRuConfiguration(
    Login: string,
    Password: string,
    ApiId: string,
    PartnerId: string,
    EmailToSmsGateEmail: string,
    Email: string,
    SmtpLogin: string,
    SmtpPassword: string,
    SmtpServer: string,
    SmtpPort: int,
    SmtpUseSSL: bool,
    Translit: bool,
    Test: bool)
  {
    /** What the constructor establishes: the gateway address is derived from the api id. */
    predicate Valid()
    {
      EmailToSmsGateEmail == ApiId + GateDomain
    }
  }

  /** The constructor: each property returns its argument, and the gateway address
      is the api id followed by the gateway's mail domain. */
  function Create(
    login: string, password: string, apiId: string, partnerId: string,
    email: string, smtpLogin: string, smtpPassword: string, smtpServer: string,
    smtpPort: int, smtpUsrSSL: bool, translit: bool, test: bool): (c: SmsRuConfiguration)
    ensures c.Valid()
    ensures c.Login == login && c.Password == password && c.ApiId == apiId
    ensures c.PartnerId == partnerId && c.Email == email
    ensures c.SmtpLogin == smtpLogin && c.SmtpPassword == smtpPassword
    ensures c.SmtpServer == smtpServer && c.SmtpPort == smtpPort
    ensures c.SmtpUseSSL == smtpUsrSSL && c.Translit == translit && c.Test == test
    ensures c.EmailToSmsGateEmail == apiId + "@sms.ru"
  {
    SmsRuConfiguration(login, password, apiId, partnerId, apiId + GateDomain, email,
      smtpLogin, smtpPassword, smtpServer, smtpPort, smtpUsrSSL, translit, test)
  }

  /** The api id an address of the gateway was derived from, if it is one. */
  function ApiIdOfGateEmail(address: string): (apiId: string)
    requires |address| >= |GateDomain| && address[|address| - |GateDomain|..] == GateDomain
    ensures address == apiId + GateDomain
  {
    address[..|address| - |GateDomain|]
  }

  /** The gateway address determines the api id: two configurations with the same
      address have the same api id, and the id can be read back from the address. */
  lemma GateEmailDeterminesApiId(c: SmsRuConfiguration, d: SmsRuConfiguration)
    requires c.Valid() && d.Valid()
    ensures |c.EmailToSmsGateEmail| >= |GateDomain|
    ensures ApiIdOfGateEmail(c.EmailToSmsGateEmail) == c.ApiId
    ensures c.EmailToSmsGateEmail == d.EmailToSmsGateEmail ==> c.ApiId == d.ApiId
  {
    var e := c.EmailToSmsGateEmail;
    assert e[..|e| - |GateDomain|] == c.ApiId;
    assert e[|e| - |GateDomain|..] == GateDomain;
    if e == d.EmailToSmsGateEmail {
      assert d.EmailToSmsGateEmail[..|e| - |GateDomain|] == d.ApiId;
    }
  }
}
