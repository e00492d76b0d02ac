/**
  What an `application/x-www-form-urlencoded` receiver reads from the text the
  provider builds: the pairs are split on `&` and `=` and each side is then
  decoded. The provider encodes nothing, so plain pairs come back unchanged and
  a `+` comes back as a space.
 */
module Receiver {
  import Text
  import Hex
  import opened Parameters
  import opened Configuration
  import opened Auth
  import opened Requests

  /** How an `application/x-www-form-urlencoded` receiver decodes a key or a value: `+` is a
      space and `%hh` the character with code `hh`; anything else stands for itself. */
  function FormDecode(s: string): string
    decreases |s|
  {
    if s == [] then ""
    else if s[0] == '+' then " " + FormDecode(s[1..])
    else if s[0] == '%' && |s| >= 3 && Hex.DigitValue(s[1]).Some? && Hex.DigitValue(s[2]).Some? then
      [(Hex.DigitValue(s[1]).value * 16 + Hex.DigitValue(s[2]).value) as char] + FormDecode(s[3..])
    else [s[0]] + FormDecode(s[1..])
  }

  /** The pairs a decoding receiver gets from a body: split as above, then each side decoded. */
  function Received(body: string): (ps: seq<Param>)
    ensures |ps| == |ParseParameters(body)|
  {
    var raw := ParseParameters(body);
    seq(|raw|, i requires 0 <= i < |raw| => Param(FormDecode(raw[i].key), FormDecode(raw[i].value)))
  }

  /** The pairs a receiver gets from the query of a link: a `#` ends the query. */
  function ReceivedQuery(query: string): seq<Param>
  {
    Received(Text.FirstPiece(query, '#'))
  }

  /** Text the receiver's decoding and the link's fragment marker leave alone. */
  predicate Unencoded(s: string)
  {
    '+' !in s && '%' !in s && '#' !in s
  }

  /** Clean pairs whose keys and values need no URL encoding. */
  predicate Plain(ps: seq<Param>)
  {
    Clean(ps) && forall i :: 0 <= i < |ps| ==> Unencoded(ps[i].key) && Unencoded(ps[i].value)
  }

  /** Decoding text without `+` or `%` changes nothing. */
  lemma {:induction false} FormDecodeUnencoded(s: string)
    requires '+' !in s && '%' !in s
    ensures FormDecode(s) == s
  {
    if s != [] {
      assert s[0] in s;
      assert forall c :: c in s[1..] ==> c in s;
      FormDecodeUnencoded(s[1..]);
      assert s == [s[0]] + s[1..];
    }
  }

  /** A character outside every key and value, and other than `&` and `=`, is nowhere in the text. */
  lemma {:induction false} PrefixedAvoids(ps: seq<Param>, c: char)
    requires c != '&' && c != '='
    requires forall i :: 0 <= i < |ps| ==> c !in ps[i].key && c !in ps[i].value
    ensures c !in Prefixed(ps)
    ensures c !in Serialize(ps)
  {
    if ps != [] {
      PrefixedAvoids(ps[1..], c);
      assert c !in ParamText(ps[0]);
    }
  }

  /** A decoding receiver, of a body or of a query, gets a serialized list of plain pairs back. */
  lemma ReceivedSerialize(ps: seq<Param>)
    requires ps != [] && Plain(ps)
    ensures Received(Serialize(ps)) == ps
    ensures ReceivedQuery(Serialize(ps)) == ps
  {
    ParseSerialize(ps);
    forall i | 0 <= i < |ps|
      ensures FormDecode(ps[i].key) == ps[i].key && FormDecode(ps[i].value) == ps[i].value
    {
      FormDecodeUnencoded(ps[i].key);
      FormDecodeUnencoded(ps[i].value);
    }
    PrefixedAvoids(ps, '#');
  }

  /** Nothing is encoded on the way out, so a value starting with `+`, an international phone
      number say, reaches a decoding receiver with a space in its place. */
  lemma PlusArrivesAsSpace(key: string, number: string)
    requires Clean([Param(key, number)]) && Unencoded(key) && Unencoded(number)
    ensures Received(Serialize([Param(key, "+" + number)])) == [Param(key, " " + number)]
  {
    var p := Param(key, "+" + number);
    assert [Param(key, number)][0] == Param(key, number);
    assert '&' !in p.value && Clean([p]) by {
      assert p.value == "+" + number;
      assert [p][0] == p;
    }
    ParseSerialize([p]);
    FormDecodeUnencoded(key);
    FormDecodeUnencoded(number);
    assert ("+" + number)[1..] == number;
  }

  // ---------------------------------------------------------------------------
  // Request bodies and links
  // ---------------------------------------------------------------------------

  /** Nothing is URL-encoded; a receiver that decodes the form gets the pairs back when no key
      or value holds `+`, `%` or `#`. */
  lemma FormBodyReceived(cfg: SmsRuConfiguration, authType: AuthenticationType, token: string,
                         sha512: string -> Digest, fields: seq<Param>)
    requires !authType.OtherValue?
    requires Plain(AuthParams(cfg, authType, token, sha512) + fields)
    ensures Received(FormBody(cfg, authType, token, sha512, fields)) ==
      AuthParams(cfg, authType, token, sha512) + fields
  {
    FormBodyReadsBack(cfg, authType, token, sha512, fields);
    ReceivedSerialize(AuthParams(cfg, authType, token, sha512) + fields);
  }

  /** The same for a link, whose query a `#` would also cut short. */
  lemma QueryLinkReceived(url: string, cfg: SmsRuConfiguration, authType: AuthenticationType,
                          token: string, sha512: string -> Digest, fields: seq<Param>)
    requires !authType.OtherValue?
    requires Plain(AuthParams(cfg, authType, token, sha512) + fields)
    ensures QueryLink(url, cfg, authType, token, sha512, fields) ==
      url + "?" + FormBody(cfg, authType, token, sha512, fields)
    ensures ReceivedQuery(FormBody(cfg, authType, token, sha512, fields)) ==
      AuthParams(cfg, authType, token, sha512) + fields
  {
    var ps := AuthParams(cfg, authType, token, sha512) + fields;
    var body := FormBody(cfg, authType, token, sha512, fields);
    assert ReceivedQuery(body) == ps by {
      FormBodyReadsBack(cfg, authType, token, sha512, fields);
      ReceivedSerialize(ps);
    }
    QueryLinkReadsBack(url, cfg, authType, token, sha512, fields);
  }
}
