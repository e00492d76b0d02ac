/**
  The authentication fragment every signed operation starts with, chosen by
  `EnumAuthenticationTypes`: the api id alone, or the login, the token fetched
  for this call and the lower-case hexadecimal SHA-512 of the password
  followed by the token (and, for `StrongApi`, by the api id).
 */
module Auth {
  import opened Wrappers
  import Text
  import Hex
  import opened Parameters
  import opened Configuration

  /** A SHA-512 digest: 64 bytes. */
  type Digest = d: seq<Hex.byte> | |d| == 64 witness seq(64, i => 0 as Hex.byte)

  /** `EnumAuthenticationTypes`; `OtherValue` is a value of the enum type outside its
      three named members, which none of the provider's three tests selects. */
  datatype AuthenticationType = Simple | Strong | StrongApi | OtherValue(value: int)

  /** `HashCodeHelper.GetSHA512Hash(input).ToLower()`, where `sha512` stands for
      SHA-512 over the UTF-8 bytes of its argument. */
  function SignedHash(sha512: string -> Digest, input: string): (h: string)
    ensures |h| == 128
    ensures forall k :: 0 <= k < |h| ==> h[k] in Hex.LowerHexDigits
    ensures Hex.DecodeHex(h) == Some(sha512(input))
  {
    var digest := sha512(input);
    Hex.LowerHexAlphabet(digest);
    Hex.DecodeLowerHexOf(digest);
    Text.Lower(Hex.HexOf(digest))
  }

  /** `HashCodeHelper.GetSHA512Hash(input)`: the digest copied into a byte array and encoded by
      `ConvertersHelper.ByteArrayToHex`, so 128 upper-case hexadecimal characters. */
  method GetSHA512Hash(sha512: string -> Digest, input: string) returns (h: string)
    ensures h == Hex.HexOf(sha512(input))
    ensures Text.Lower(h) == SignedHash(sha512, input)
  {
    var digest := sha512(input);
    var bytes := new Hex.byte[|digest|](i requires 0 <= i < |digest| => digest[i]);
    assert bytes[..] == digest;
    h := Hex.ByteArrayToHex(bytes);
  }

  /** The pairs of the fragment: `api_id`, or `login`, `token` and `sha512`; none for an unnamed mode. */
  function AuthParams(cfg: SmsRuConfiguration, authType: AuthenticationType, token: string,
                      sha512: string -> Digest): (ps: seq<Param>)
    ensures forall i :: 0 <= i < |ps| ==> ps[i].key in {"api_id", "login", "token", "sha512"}
  {
    match authType
    case Simple => [Param("api_id", cfg.ApiId)]
    case Strong => [Param("login", cfg.Login), Param("token", token),
                    Param("sha512", SignedHash(sha512, cfg.Password + token))]
    case StrongApi => [Param("login", cfg.Login), Param("token", token),
                       Param("sha512", SignedHash(sha512, cfg.Password + token + cfg.ApiId))]
    case OtherValue(_) => []
  }

  /** The fragment as the write operations put it at the head of their form body. */
  function AuthFragment(cfg: SmsRuConfiguration, authType: AuthenticationType, token: string,
                        sha512: string -> Digest): (fragment: string)
    ensures fragment == "" <==> authType.OtherValue?
  {
    var ps := AuthParams(cfg, authType, token, sha512);
    assert ps != [] ==> ParamText(ps[0]) != "";
    Serialize(ps)
  }

  /** For a named mode whose values hold no separator, splitting the fragment on `&` and `=`
      gives back the mode's authentication pairs. */
  lemma AuthFragmentReadsBack(cfg: SmsRuConfiguration, authType: AuthenticationType, token: string,
                              sha512: string -> Digest)
    requires !authType.OtherValue? && Clean(AuthParams(cfg, authType, token, sha512))
    ensures ParseParameters(AuthFragment(cfg, authType, token, sha512)) == AuthParams(cfg, authType, token, sha512)
  {
    ParseSerialize(AuthParams(cfg, authType, token, sha512));
  }

  /** The fragment as the read operations put it at the head of their link: `<url>?` first;
      an unnamed mode leaves the link without even the url. */
  function AuthLink(url: string, cfg: SmsRuConfiguration, authType: AuthenticationType,
                    token: string, sha512: string -> Digest): (link: string)
    ensures authType.OtherValue? ==> link == ""
    ensures !authType.OtherValue? ==> |link| > |url| + 1 && link[..|url| + 1] == url + "?"
  {
    if authType.OtherValue? then "" else url + "?" + AuthFragment(cfg, authType, token, sha512)
  }

  /** What each mode sends: `Simple` the api id; `Strong` and `StrongApi` the login, the
      token as received (an empty token is signed and sent too) and the signed hash of
      password‖token, respectively password‖token‖apiId; an unnamed mode sends nothing. */
  lemma AuthFragmentShape(cfg: SmsRuConfiguration, authType: AuthenticationType, token: string,
                          sha512: string -> Digest)
    ensures authType.Simple? ==> AuthFragment(cfg, authType, token, sha512) == "api_id=" + cfg.ApiId
    ensures authType.Strong? ==>
      AuthFragment(cfg, authType, token, sha512) ==
      "login=" + cfg.Login + "&token=" + token + "&sha512=" + SignedHash(sha512, cfg.Password + token)
    ensures authType.StrongApi? ==>
      AuthFragment(cfg, authType, token, sha512) ==
      "login=" + cfg.Login + "&token=" + token + "&sha512=" + SignedHash(sha512, cfg.Password + token + cfg.ApiId)
    ensures authType.OtherValue? ==> AuthFragment(cfg, authType, token, sha512) == ""
  {
    if authType.Strong? || authType.StrongApi? {
      var h := if authType.Strong? then SignedHash(sha512, cfg.Password + token)
               else SignedHash(sha512, cfg.Password + token + cfg.ApiId);
      SignedFragment(cfg.Login, token, h);
    }
  }

  lemma SignedFragment(login: string, token: string, h: string)
    ensures Serialize([Param("login", login), Param("token", token), Param("sha512", h)]) ==
      "login=" + login + "&token=" + token + "&sha512=" + h
  {
    var ps := [Param("login", login), Param("token", token), Param("sha512", h)];
    assert ps[1..][1..] == [ps[2]];
    assert Prefixed(ps[1..][1..]) == "&sha512=" + h;
    assert Prefixed(ps[1..]) == "&token=" + token + "&sha512=" + h;
  }

  /** Two signed fragments that agree carry the same digest: the hash binds the password,
      the token and (for `StrongApi`) the api id fed to SHA-512. */
  lemma SignatureBindsDigest(sha512: string -> Digest, a: string, b: string)
    requires SignedHash(sha512, a) == SignedHash(sha512, b)
    ensures sha512(a) == sha512(b)
  {
    assert Hex.DecodeHex(SignedHash(sha512, a)) == Some(sha512(a));
  }
}
