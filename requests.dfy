/**
  The request texts the provider assembles: the comma-joined recipient list,
  the `multi[...]` pairs of a batch, the optional trailing parameters, and the
  form bodies and query links that carry the authentication fragment first.
  The loops of the source are methods proved against the functions here.
 */
module Requests {
  import Text
  import opened Parameters
  import opened Configuration
  import opened Auth

  /** A `DateTime`, as its tick count; `DateTime.MinValue` is tick zero. */
  type DateTime = nat

  const MinValue: DateTime := 0

  /** A `MinValue` date stands for "now": the moment a send is
      scheduled for. Only a clock reading `MinValue` itself leaves it at `MinValue`. */
  function Scheduled(dateTime: DateTime, now: DateTime): (d: DateTime)
    ensures dateTime != MinValue ==> d == dateTime
    ensures dateTime == MinValue ==> d == now
    ensures d == MinValue <==> dateTime == MinValue && now == MinValue
  {
    if dateTime == MinValue then now else dateTime
  }

  // ---------------------------------------------------------------------------
  // Recipients
  // ---------------------------------------------------------------------------

  /** The recipient list of `Send` and `SendByEmail`: each number followed by a comma, then the
      last comma cut off, which is the numbers joined by commas. */
  method JoinRecipients(to: seq<string>) returns (recipients: string)
    requires |to| >= 1
    ensures recipients == Text.Join(to, ',')
  {
    recipients := "";
    for i := 0 to |to|
      invariant i == 0 ==> recipients == ""
      invariant i > 0 ==> recipients == Text.Join(to[..i], ',') + ","
    {
      if i > 0 {
        assert to[..i + 1] == to[..i] + [to[i]];
        Text.JoinSnoc(to[..i], to[i], ',');
      } else {
        assert to[..1] == [to[0]];
      }
      recipients := recipients + (to[i] + ",");
    }
    assert to[..|to|] == to;
    recipients := recipients[..|recipients| - 1];
  }

  /** Recipients that contain no comma can be read back from the joined list, in order. */
  lemma RecipientsReadBack(to: seq<string>)
    requires |to| >= 1
    requires forall k :: 0 <= k < |to| ==> ',' !in to[k]
    ensures Text.Split(Text.Join(to, ','), ',') == to
  {
    Text.SplitJoin(to, ',');
  }

  /** One `multi[<phone>]=<text>` pair per dictionary entry, in enumeration order. */
  function MultiParams(entries: seq<(string, string)>): (ps: seq<Param>)
    ensures |ps| == |entries|
    ensures forall i :: 0 <= i < |entries| ==>
      ps[i] == Param("multi[" + entries[i].0 + "]", entries[i].1)
  {
    seq(|entries|, i requires 0 <= i < |entries| => Param("multi[" + entries[i].0 + "]", entries[i].1))
  }

  /** The batch text of `SendMultiple`: one `&multi[<phone>]=<text>` per entry, in enumeration order. */
  method MultiRecipients(entries: seq<(string, string)>) returns (recipients: string)
    ensures recipients == Prefixed(MultiParams(entries))
  {
    recipients := "";
    for i := 0 to |entries|
      invariant recipients == Prefixed(MultiParams(entries[..i]))
    {
      ghost var before := recipients;
      recipients := recipients + ("&multi[" + entries[i].0 + "]=" + entries[i].1);
      MultiAppended(entries, i, before, recipients);
    }
    assert entries[..|entries|] == entries;
  }

  /** One iteration of `MultiRecipients`: the text grows by the pair of entry `i`. */
  lemma MultiAppended(entries: seq<(string, string)>, i: nat, before: string, after: string)
    requires i < |entries|
    requires before == Prefixed(MultiParams(entries[..i]))
    requires after == before + ("&multi[" + entries[i].0 + "]=" + entries[i].1)
    ensures after == Prefixed(MultiParams(entries[..i + 1]))
  {
    var p := Param("multi[" + entries[i].0 + "]", entries[i].1);
    var ps := MultiParams(entries[..i]);
    calc {
      Prefixed(MultiParams(entries[..i + 1]));
      { assert MultiParams(entries[..i + 1]) == ps + [p]; }
      Prefixed(ps + [p]);
      { PrefixedConcat(ps, [p]); PrefixedOne(p); }
      before + ("&" + p.key + "=" + p.value);
      { assert "&" + p.key + "=" + p.value == "&multi[" + entries[i].0 + "]=" + entries[i].1; }
      after;
    }
  }

  // ---------------------------------------------------------------------------
  // Optional parameters of the two send operations
  // ---------------------------------------------------------------------------

  /** The pairs appended after the fixed ones, in this order: `time` (the Unix time of the
      scheduled moment, when that is not `MinValue`), `partner_id` (when configured),
      `translit=1` and `test=1` (when the flags are set). */
  function OptionalParams(cfg: SmsRuConfiguration, date: DateTime, unixTime: DateTime -> int): (ps: seq<Param>)
    ensures |ps| <= 4
  {
    PairIf(date != MinValue, Param("time", Text.IntToString(unixTime(date))))
    + PairIf(cfg.PartnerId != "", Param("partner_id", cfg.PartnerId))
    + PairIf(cfg.Translit, Param("translit", "1"))
    + PairIf(cfg.Test, Param("test", "1"))
  }

  /** The position of an optional key in the order the source appends them. */
  function OptionalRank(key: string): int
  {
    if key == "time" then 0
    else if key == "partner_id" then 1
    else if key == "translit" then 2
    else 3
  }

  /** Each optional pair is present exactly once when its condition holds and absent otherwise. */
  lemma OptionalParamsCount(cfg: SmsRuConfiguration, date: DateTime, unixTime: DateTime -> int, k: string)
    ensures Count(OptionalParams(cfg, date, unixTime), k) ==
      (if k == "time" && date != MinValue then 1 else 0)
      + (if k == "partner_id" && cfg.PartnerId != "" then 1 else 0)
      + (if k == "translit" && cfg.Translit then 1 else 0)
      + (if k == "test" && cfg.Test then 1 else 0)
  {
    var a := PairIf(date != MinValue, Param("time", Text.IntToString(unixTime(date))));
    var b := PairIf(cfg.PartnerId != "", Param("partner_id", cfg.PartnerId));
    var c := PairIf(cfg.Translit, Param("translit", "1"));
    var d := PairIf(cfg.Test, Param("test", "1"));
    CountConcat(a + b + c, d, k);
    CountConcat(a + b, c, k);
    CountConcat(a, b, k);
    CountPairIf(date != MinValue, Param("time", Text.IntToString(unixTime(date))), k);
    CountPairIf(cfg.PartnerId != "", Param("partner_id", cfg.PartnerId), k);
    CountPairIf(cfg.Translit, Param("translit", "1"), k);
    CountPairIf(cfg.Test, Param("test", "1"), k);
  }

  /** Every optional pair carries the documented value. */
  lemma OptionalParamsValues(cfg: SmsRuConfiguration, date: DateTime, unixTime: DateTime -> int)
    ensures var ps := OptionalParams(cfg, date, unixTime);
      forall i :: 0 <= i < |ps| ==>
        && ps[i].key in {"time", "partner_id", "translit", "test"}
        && (ps[i].key == "time" ==> ps[i].value == Text.IntToString(unixTime(date)))
        && (ps[i].key == "partner_id" ==> ps[i].value == cfg.PartnerId)
        && (ps[i].key == "translit" || ps[i].key == "test" ==> ps[i].value == "1")
  {
  }

  /** The optional pairs come in the fixed order `time`, `partner_id`, `translit`, `test`. */
  lemma OptionalParamsOrder(cfg: SmsRuConfiguration, date: DateTime, unixTime: DateTime -> int)
    ensures var ps := OptionalParams(cfg, date, unixTime);
      forall i, j :: 0 <= i < j < |ps| ==> OptionalRank(ps[i].key) < OptionalRank(ps[j].key)
  {
  }

  /** Appends the optional pairs to `parameters`, one `if` at a time as the source does. */
  method AppendOptionalParameters(parameters: string, cfg: SmsRuConfiguration, date: DateTime,
                                  unixTime: DateTime -> int) returns (r: string)
    ensures r == parameters + Prefixed(OptionalParams(cfg, date, unixTime))
  {
    var time := Text.IntToString(unixTime(date));
    ghost var before, appended := parameters, "";
    r := parameters;
    if date != MinValue {
      r := r + ("&time=" + time);
    }
    appended := AppendedIf(parameters, before, appended, date != MinValue, "&time=", time, r);
    before := r;
    if cfg.PartnerId != "" {
      r := r + ("&partner_id=" + cfg.PartnerId);
    }
    appended := AppendedIf(parameters, before, appended, cfg.PartnerId != "", "&partner_id=", cfg.PartnerId, r);
    before := r;
    if cfg.Translit {
      r := r + ("&translit=" + "1");
    }
    appended := AppendedIf(parameters, before, appended, cfg.Translit, "&translit=", "1", r);
    before := r;
    if cfg.Test {
      r := r + ("&test=" + "1");
    }
    appended := AppendedIf(parameters, before, appended, cfg.Test, "&test=", "1", r);
    OptionalText(cfg, date, unixTime);
  }

  /** The text one conditional append of `prefix + value` adds. */
  function PairText(present: bool, prefix: string, value: string): string
  {
    if present then prefix + value else ""
  }

  /** One conditional append: the text appended so far grows by `PairText`. */
  lemma AppendedIf(parameters: string, before: string, appended: string, present: bool,
                   prefix: string, value: string, after: string) returns (next: string)
    requires before == parameters + appended
    requires after == if present then before + (prefix + value) else before
    ensures next == appended + PairText(present, prefix, value)
    ensures after == parameters + next
  {
    next := appended + PairText(present, prefix, value);
    if present {
      assert parameters + appended + (prefix + value) == parameters + (appended + (prefix + value));
    } else {
      assert next == appended;
    }
  }

  /** The four conditional appends write exactly the optional pairs, in order. */
  lemma OptionalText(cfg: SmsRuConfiguration, date: DateTime, unixTime: DateTime -> int)
    ensures Prefixed(OptionalParams(cfg, date, unixTime)) ==
      "" + PairText(date != MinValue, "&time=", Text.IntToString(unixTime(date)))
      + PairText(cfg.PartnerId != "", "&partner_id=", cfg.PartnerId)
      + PairText(cfg.Translit, "&translit=", "1")
      + PairText(cfg.Test, "&test=", "1")
  {
    var a := PairIf(date != MinValue, Param("time", Text.IntToString(unixTime(date))));
    var b := PairIf(cfg.PartnerId != "", Param("partner_id", cfg.PartnerId));
    var c := PairIf(cfg.Translit, Param("translit", "1"));
    var d := PairIf(cfg.Test, Param("test", "1"));
    assert Prefixed(a) == "" + PairText(date != MinValue, "&time=", Text.IntToString(unixTime(date))) by {
      PrefixedPairText(date != MinValue, Param("time", Text.IntToString(unixTime(date))), "&time=");
    }
    assert Prefixed(a + b) == Prefixed(a) + PairText(cfg.PartnerId != "", "&partner_id=", cfg.PartnerId) by {
      PrefixedSnoc(a, cfg.PartnerId != "", Param("partner_id", cfg.PartnerId), "&partner_id=");
    }
    assert Prefixed(a + b + c) == Prefixed(a + b) + PairText(cfg.Translit, "&translit=", "1") by {
      PrefixedSnoc(a + b, cfg.Translit, Param("translit", "1"), "&translit=");
    }
    assert Prefixed(a + b + c + d) == Prefixed(a + b + c) + PairText(cfg.Test, "&test=", "1") by {
      PrefixedSnoc(a + b + c, cfg.Test, Param("test", "1"), "&test=");
    }
  }

  /** One more conditional pair appends its text. */
  lemma PrefixedSnoc(ps: seq<Param>, present: bool, p: Param, prefix: string)
    requires prefix == "&" + p.key + "="
    ensures Prefixed(ps + PairIf(present, p)) == Prefixed(ps) + PairText(present, prefix, p.value)
  {
    PrefixedConcat(ps, PairIf(present, p));
    PrefixedPairText(present, p, prefix);
  }

  lemma PrefixedPairText(present: bool, p: Param, prefix: string)
    requires prefix == "&" + p.key + "="
    ensures Prefixed(PairIf(present, p)) == PairText(present, prefix, p.value)
  {
    PrefixedPairIf(present, p);
    if present {
      assert "&" + p.key + "=" + p.value == prefix + p.value;
    }
  }

  // ---------------------------------------------------------------------------
  // Bodies and links
  // ---------------------------------------------------------------------------

  /** A POST body: the authentication fragment followed by `&`-prefixed fields. */
  function FormBody(cfg: SmsRuConfiguration, authType: AuthenticationType, token: string,
                    sha512: string -> Digest, fields: seq<Param>): string
  {
    AuthFragment(cfg, authType, token, sha512) + Prefixed(fields)
  }

  /** A GET link: `<url>?` and the authentication fragment, followed by `&`-prefixed fields. */
  function QueryLink(url: string, cfg: SmsRuConfiguration, authType: AuthenticationType, token: string,
                     sha512: string -> Digest, fields: seq<Param>): string
  {
    AuthLink(url, cfg, authType, token, sha512) + Prefixed(fields)
  }

  /** With a named authentication mode a body is a well-formed form: split on `&` and `=`, it
      gives back the authentication pairs followed by the fields, provided nothing holds a separator. */
  lemma FormBodyReadsBack(cfg: SmsRuConfiguration, authType: AuthenticationType, token: string,
                          sha512: string -> Digest, fields: seq<Param>)
    requires !authType.OtherValue?
    requires Clean(AuthParams(cfg, authType, token, sha512) + fields)
    ensures FormBody(cfg, authType, token, sha512, fields) ==
      Serialize(AuthParams(cfg, authType, token, sha512) + fields)
    ensures ParseParameters(FormBody(cfg, authType, token, sha512, fields)) ==
      AuthParams(cfg, authType, token, sha512) + fields
  {
    var auth := AuthParams(cfg, authType, token, sha512);
    SerializeConcat(auth, fields);
    ParseSerialize(auth + fields);
  }

  /** With a named mode a link is the url, `?`, and a query that splits back into the
      authentication pairs followed by the fields. */
  lemma QueryLinkReadsBack(url: string, cfg: SmsRuConfiguration, authType: AuthenticationType,
                           token: string, sha512: string -> Digest, fields: seq<Param>)
    requires !authType.OtherValue?
    requires Clean(AuthParams(cfg, authType, token, sha512) + fields)
    ensures QueryLink(url, cfg, authType, token, sha512, fields) ==
      url + "?" + FormBody(cfg, authType, token, sha512, fields)
    ensures ParseParameters(FormBody(cfg, authType, token, sha512, fields)) ==
      AuthParams(cfg, authType, token, sha512) + fields
  {
    FormBodyReadsBack(cfg, authType, token, sha512, fields);
  }

  // ---------------------------------------------------------------------------
  // The fields of each operation
  // ---------------------------------------------------------------------------

  /** `Send`: `to`, `text`, `from`, then the optional pairs. */
  function SendFields(to: seq<string>, text: string, from: string, cfg: SmsRuConfiguration,
                      date: DateTime, unixTime: DateTime -> int): (ps: seq<Param>)
    requires |to| >= 1
    ensures 3 <= |ps| <= 7
  {
    [Param("to", Text.Join(to, ',')), Param("text", text), Param("from", from)]
      + OptionalParams(cfg, date, unixTime)
  }

  /** `SendMultiple`: `from`, the `multi[...]` pairs, then the optional pairs. */
  function SendMultipleFields(from: string, entries: seq<(string, string)>, cfg: SmsRuConfiguration,
                              date: DateTime, unixTime: DateTime -> int): (ps: seq<Param>)
    ensures |entries| + 1 <= |ps| <= |entries| + 5
  {
    [Param("from", from)] + MultiParams(entries) + OptionalParams(cfg, date, unixTime)
  }

  /** How often a key that is not an authentication key occurs among the pairs of a `Send` body. */
  lemma SendFieldsCount(cfg: SmsRuConfiguration, authType: AuthenticationType, token: string,
                        sha512: string -> Digest, to: seq<string>, text: string, from: string,
                        date: DateTime, unixTime: DateTime -> int, k: string)
    requires |to| >= 1 && k !in {"api_id", "login", "token", "sha512"}
    ensures Count(AuthParams(cfg, authType, token, sha512) + SendFields(to, text, from, cfg, date, unixTime), k) ==
      (if k == "to" then 1 else 0) + (if k == "text" then 1 else 0) + (if k == "from" then 1 else 0)
      + Count(OptionalParams(cfg, date, unixTime), k)
  {
    var auth := AuthParams(cfg, authType, token, sha512);
    var fixed := [Param("to", Text.Join(to, ',')), Param("text", text), Param("from", from)];
    var opt := OptionalParams(cfg, date, unixTime);
    assert auth + SendFields(to, text, from, cfg, date, unixTime) == auth + fixed + opt;
    CountConcat(auth + fixed, opt, k);
    CountConcat(auth, fixed, k);
    CountAbsent(auth, k);
    CountThree(fixed[0], fixed[1], fixed[2], k);
  }

  lemma CountThree(p0: Param, p1: Param, p2: Param, k: string)
    ensures Count([p0, p1, p2], k) ==
      (if p0.key == k then 1 else 0) + (if p1.key == k then 1 else 0) + (if p2.key == k then 1 else 0)
  {
    assert [p0, p1, p2] == [p0] + [p1] + [p2];
    CountConcat([p0] + [p1], [p2], k);
    CountConcat([p0], [p1], k);
    CountPairIf(true, p0, k);
    CountPairIf(true, p1, k);
    CountPairIf(true, p2, k);
  }

  /** What splitting a `Send` body whose values hold no `&` gives: the authentication pairs,
      one `to`, one `text` and one `from` pair, and each optional pair exactly when its condition holds. */
  lemma SendBodyFields(cfg: SmsRuConfiguration, authType: AuthenticationType, token: string,
                       sha512: string -> Digest, to: seq<string>, text: string,
                       from: string, date: DateTime, unixTime: DateTime -> int)
    requires |to| >= 1 && !authType.OtherValue?
    requires Clean(AuthParams(cfg, authType, token, sha512) + SendFields(to, text, from, cfg, date, unixTime))
    ensures var parsed := ParseParameters(FormBody(cfg, authType, token, sha512,
                                                   SendFields(to, text, from, cfg, date, unixTime)));
      && parsed == AuthParams(cfg, authType, token, sha512) + SendFields(to, text, from, cfg, date, unixTime)
      && Count(parsed, "to") == 1 && Count(parsed, "text") == 1 && Count(parsed, "from") == 1
      && Count(parsed, "time") == (if date != MinValue then 1 else 0)
      && Count(parsed, "partner_id") == (if cfg.PartnerId != "" then 1 else 0)
      && Count(parsed, "translit") == (if cfg.Translit then 1 else 0)
      && Count(parsed, "test") == (if cfg.Test then 1 else 0)
  {
    var fields := SendFields(to, text, from, cfg, date, unixTime);
    FormBodyReadsBack(cfg, authType, token, sha512, fields);
    SendPairCounts(cfg, authType, token, sha512, to, text, from, date, unixTime);
    SendOptionalCounts(cfg, authType, token, sha512, to, text, from, date, unixTime);
  }

  /** The fixed-key counts of the pairs a `Send` body is made of. */
  lemma SendPairCounts(cfg: SmsRuConfiguration, authType: AuthenticationType, token: string,
                       sha512: string -> Digest, to: seq<string>, text: string,
                       from: string, date: DateTime, unixTime: DateTime -> int)
    requires |to| >= 1
    ensures var ps := AuthParams(cfg, authType, token, sha512) + SendFields(to, text, from, cfg, date, unixTime);
      Count(ps, "to") == 1 && Count(ps, "text") == 1 && Count(ps, "from") == 1
  {
    var ps := AuthParams(cfg, authType, token, sha512) + SendFields(to, text, from, cfg, date, unixTime);
    assert Count(ps, "to") == 1 by {
      SendFieldsCount(cfg, authType, token, sha512, to, text, from, date, unixTime, "to");
      OptionalParamsCount(cfg, date, unixTime, "to");
    }
    assert Count(ps, "text") == 1 by {
      SendFieldsCount(cfg, authType, token, sha512, to, text, from, date, unixTime, "text");
      OptionalParamsCount(cfg, date, unixTime, "text");
    }
    assert Count(ps, "from") == 1 by {
      SendFieldsCount(cfg, authType, token, sha512, to, text, from, date, unixTime, "from");
      OptionalParamsCount(cfg, date, unixTime, "from");
    }
  }

  /** The optional-key counts of the pairs a `Send` body is made of. */
  lemma SendOptionalCounts(cfg: SmsRuConfiguration, authType: AuthenticationType, token: string,
                           sha512: string -> Digest, to: seq<string>, text: string,
                           from: string, date: DateTime, unixTime: DateTime -> int)
    requires |to| >= 1
    ensures var ps := AuthParams(cfg, authType, token, sha512) + SendFields(to, text, from, cfg, date, unixTime);
      && Count(ps, "time") == (if date != MinValue then 1 else 0)
      && Count(ps, "partner_id") == (if cfg.PartnerId != "" then 1 else 0)
      && Count(ps, "translit") == (if cfg.Translit then 1 else 0)
      && Count(ps, "test") == (if cfg.Test then 1 else 0)
  {
    var ps := AuthParams(cfg, authType, token, sha512) + SendFields(to, text, from, cfg, date, unixTime);
    assert Count(ps, "time") == (if date != MinValue then 1 else 0) by {
      SendFieldsCount(cfg, authType, token, sha512, to, text, from, date, unixTime, "time");
      OptionalParamsCount(cfg, date, unixTime, "time");
    }
    assert Count(ps, "partner_id") == (if cfg.PartnerId != "" then 1 else 0) by {
      SendFieldsCount(cfg, authType, token, sha512, to, text, from, date, unixTime, "partner_id");
      OptionalParamsCount(cfg, date, unixTime, "partner_id");
    }
    assert Count(ps, "translit") == (if cfg.Translit then 1 else 0) by {
      SendFieldsCount(cfg, authType, token, sha512, to, text, from, date, unixTime, "translit");
      OptionalParamsCount(cfg, date, unixTime, "translit");
    }
    assert Count(ps, "test") == (if cfg.Test then 1 else 0) by {
      SendFieldsCount(cfg, authType, token, sha512, to, text, from, date, unixTime, "test");
      OptionalParamsCount(cfg, date, unixTime, "test");
    }
  }

  /** No `multi[...]` key is one of the plain keys of the send operations. */
  lemma MultiKeysAbsent(entries: seq<(string, string)>, k: string)
    requires |k| > 0 && k[0] != 'm'
    ensures Count(MultiParams(entries), k) == 0
  {
    var ps := MultiParams(entries);
    forall i | 0 <= i < |ps|
      ensures Keys(ps)[i] != k
    {
      assert Keys(ps)[i][0] == 'm';
    }
    CountAbsent(ps, k);
  }

  /** No authentication pair carries a key outside the four authentication keys. */
  lemma AuthKeysAbsent(cfg: SmsRuConfiguration, authType: AuthenticationType, token: string,
                       sha512: string -> Digest, k: string)
    requires k !in {"api_id", "login", "token", "sha512"}
    ensures Count(AuthParams(cfg, authType, token, sha512), k) == 0
  {
    var auth := AuthParams(cfg, authType, token, sha512);
    forall i | 0 <= i < |auth|
      ensures Keys(auth)[i] != k
    {
      assert Keys(auth)[i] == auth[i].key;
    }
    CountAbsent(auth, k);
  }

  /** How often a plain key occurs among the `SendMultiple` pairs after the authentication ones. */
  lemma MultipleFieldsCount(from: string, entries: seq<(string, string)>, cfg: SmsRuConfiguration,
                            date: DateTime, unixTime: DateTime -> int, k: string)
    requires |k| > 0 && k[0] != 'm'
    ensures Count(SendMultipleFields(from, entries, cfg, date, unixTime), k) ==
      (if k == "from" then 1 else 0) + Count(OptionalParams(cfg, date, unixTime), k)
  {
    var fixed := [Param("from", from)];
    var multi := MultiParams(entries);
    var opt := OptionalParams(cfg, date, unixTime);
    CountConcat(fixed + multi, opt, k);
    CountConcat(fixed, multi, k);
    CountPairIf(true, Param("from", from), k);
    MultiKeysAbsent(entries, k);
  }

  /** How often a plain key occurs among the pairs of a `SendMultiple` body. */
  lemma SendMultipleFieldsCount(cfg: SmsRuConfiguration, authType: AuthenticationType, token: string,
                                sha512: string -> Digest, from: string, entries: seq<(string, string)>,
                                date: DateTime, unixTime: DateTime -> int, k: string)
    requires k !in {"api_id", "login", "token", "sha512"} && |k| > 0 && k[0] != 'm'
    ensures Count(AuthParams(cfg, authType, token, sha512) + SendMultipleFields(from, entries, cfg, date, unixTime), k) ==
      (if k == "from" then 1 else 0) + Count(OptionalParams(cfg, date, unixTime), k)
  {
    CountConcat(AuthParams(cfg, authType, token, sha512), SendMultipleFields(from, entries, cfg, date, unixTime), k);
    AuthKeysAbsent(cfg, authType, token, sha512, k);
    MultipleFieldsCount(from, entries, cfg, date, unixTime, k);
  }

  /** The pairs of a `SendMultiple` body, position by position: the authentication pairs, `from`,
      one `multi[<phone>]=<text>` pair per entry in order, then the optional pairs. */
  lemma SendMultipleLayout(all: seq<Param>, auth: seq<Param>, from: string, entries: seq<(string, string)>,
                           opt: seq<Param>)
    requires all == auth + ([Param("from", from)] + MultiParams(entries) + opt)
    ensures |all| == |auth| + 1 + |entries| + |opt|
    ensures all[..|auth|] == auth
    ensures all[|auth|] == Param("from", from)
    ensures forall i :: 0 <= i < |entries| ==>
      all[|auth| + 1 + i] == Param("multi[" + entries[i].0 + "]", entries[i].1)
  {
    assert all[..|auth|] == auth;
    forall i | 0 <= i < |entries|
      ensures all[|auth| + 1 + i] == Param("multi[" + entries[i].0 + "]", entries[i].1)
    {
      assert all[|auth| + 1 + i] == MultiParams(entries)[i];
    }
  }

  /** What splitting a `SendMultiple` body whose values hold no `&` gives: the authentication
      pairs, then one `from` pair, then one `multi[<phone>]=<text>` pair per entry in order, then the
      optional pairs, so that entry `i` sits at position `|auth| + 1 + i`. */
  lemma SendMultipleBodyFields(cfg: SmsRuConfiguration, authType: AuthenticationType, token: string,
                               sha512: string -> Digest, from: string, entries: seq<(string, string)>,
                               date: DateTime, unixTime: DateTime -> int)
    requires !authType.OtherValue?
    requires Clean(AuthParams(cfg, authType, token, sha512) + SendMultipleFields(from, entries, cfg, date, unixTime))
    ensures var auth := AuthParams(cfg, authType, token, sha512);
      var parsed := ParseParameters(FormBody(cfg, authType, token, sha512,
                                             SendMultipleFields(from, entries, cfg, date, unixTime)));
      parsed == auth + ([Param("from", from)] + MultiParams(entries) + OptionalParams(cfg, date, unixTime))
    ensures var auth := AuthParams(cfg, authType, token, sha512);
      var parsed := ParseParameters(FormBody(cfg, authType, token, sha512,
                                             SendMultipleFields(from, entries, cfg, date, unixTime)));
      && |parsed| == |auth| + 1 + |entries| + |OptionalParams(cfg, date, unixTime)|
      && parsed[|auth|] == Param("from", from)
      && forall i :: 0 <= i < |entries| ==>
           parsed[|auth| + 1 + i] == Param("multi[" + entries[i].0 + "]", entries[i].1)
  {
    var auth := AuthParams(cfg, authType, token, sha512);
    var fields := SendMultipleFields(from, entries, cfg, date, unixTime);
    var opt := OptionalParams(cfg, date, unixTime);
    var parsed := ParseParameters(FormBody(cfg, authType, token, sha512, fields));
    assert parsed == auth + ([Param("from", from)] + MultiParams(entries) + opt) by {
      FormBodyReadsBack(cfg, authType, token, sha512, fields);
    }
    assert && |parsed| == |auth| + 1 + |entries| + |opt|
           && parsed[|auth|] == Param("from", from)
           && forall i :: 0 <= i < |entries| ==>
                parsed[|auth| + 1 + i] == Param("multi[" + entries[i].0 + "]", entries[i].1) by {
      SendMultipleLayout(parsed, auth, from, entries, opt);
    }
  }

  /** The same body read by key: one `from` pair, and each optional pair exactly when its condition
      holds. */
  lemma SendMultipleBodyCounts(cfg: SmsRuConfiguration, authType: AuthenticationType, token: string,
                               sha512: string -> Digest, from: string, entries: seq<(string, string)>,
                               date: DateTime, unixTime: DateTime -> int)
    requires !authType.OtherValue?
    requires Clean(AuthParams(cfg, authType, token, sha512) + SendMultipleFields(from, entries, cfg, date, unixTime))
    ensures var parsed := ParseParameters(FormBody(cfg, authType, token, sha512,
                                                   SendMultipleFields(from, entries, cfg, date, unixTime)));
      && Count(parsed, "from") == 1
      && Count(parsed, "time") == (if date != MinValue then 1 else 0)
      && Count(parsed, "partner_id") == (if cfg.PartnerId != "" then 1 else 0)
      && Count(parsed, "translit") == (if cfg.Translit then 1 else 0)
      && Count(parsed, "test") == (if cfg.Test then 1 else 0)
  {
    FormBodyReadsBack(cfg, authType, token, sha512, SendMultipleFields(from, entries, cfg, date, unixTime));
    SendMultiplePairCounts(cfg, authType, token, sha512, from, entries, date, unixTime);
  }

  /** The plain-key counts of the pairs a `SendMultiple` body is made of. */
  lemma SendMultiplePairCounts(cfg: SmsRuConfiguration, authType: AuthenticationType, token: string,
                               sha512: string -> Digest, from: string, entries: seq<(string, string)>,
                               date: DateTime, unixTime: DateTime -> int)
    ensures var ps := AuthParams(cfg, authType, token, sha512) + SendMultipleFields(from, entries, cfg, date, unixTime);
      && Count(ps, "from") == 1
      && Count(ps, "time") == (if date != MinValue then 1 else 0)
      && Count(ps, "partner_id") == (if cfg.PartnerId != "" then 1 else 0)
      && Count(ps, "translit") == (if cfg.Translit then 1 else 0)
      && Count(ps, "test") == (if cfg.Test then 1 else 0)
  {
    var ps := AuthParams(cfg, authType, token, sha512) + SendMultipleFields(from, entries, cfg, date, unixTime);
    assert Count(ps, "from") == 1 by {
      SendMultipleFieldsCount(cfg, authType, token, sha512, from, entries, date, unixTime, "from");
      OptionalParamsCount(cfg, date, unixTime, "from");
    }
    assert Count(ps, "time") == (if date != MinValue then 1 else 0) by {
      SendMultipleFieldsCount(cfg, authType, token, sha512, from, entries, date, unixTime, "time");
      OptionalParamsCount(cfg, date, unixTime, "time");
    }
    assert Count(ps, "partner_id") == (if cfg.PartnerId != "" then 1 else 0) by {
      SendMultipleFieldsCount(cfg, authType, token, sha512, from, entries, date, unixTime, "partner_id");
      OptionalParamsCount(cfg, date, unixTime, "partner_id");
    }
    assert Count(ps, "translit") == (if cfg.Translit then 1 else 0) by {
      SendMultipleFieldsCount(cfg, authType, token, sha512, from, entries, date, unixTime, "translit");
      OptionalParamsCount(cfg, date, unixTime, "translit");
    }
    assert Count(ps, "test") == (if cfg.Test then 1 else 0) by {
      SendMultipleFieldsCount(cfg, authType, token, sha512, from, entries, date, unixTime, "test");
      OptionalParamsCount(cfg, date, unixTime, "test");
    }
  }

  /** `Send` replaces a `MinValue` date by the clock before testing it, so every `Send` body carries
      exactly one `time` pair, the Unix time of the requested moment or of now, unless the clock
      itself reads `MinValue`. */
  lemma SendTimeParameter(cfg: SmsRuConfiguration, authType: AuthenticationType, token: string,
                          sha512: string -> Digest, to: seq<string>, text: string, from: string,
                          dateTime: DateTime, now: DateTime, unixTime: DateTime -> int)
    requires |to| >= 1 && !authType.OtherValue?
    requires Clean(AuthParams(cfg, authType, token, sha512)
                   + SendFields(to, text, from, cfg, Scheduled(dateTime, now), unixTime))
    ensures var parsed := ParseParameters(FormBody(cfg, authType, token, sha512,
                                                   SendFields(to, text, from, cfg, Scheduled(dateTime, now), unixTime)));
      Count(parsed, "time") == (if dateTime == MinValue && now == MinValue then 0 else 1)
    ensures dateTime == MinValue && now != MinValue ==>
      Param("time", Text.IntToString(unixTime(now))) in OptionalParams(cfg, Scheduled(dateTime, now), unixTime)
    ensures dateTime != MinValue ==>
      Param("time", Text.IntToString(unixTime(dateTime))) in OptionalParams(cfg, Scheduled(dateTime, now), unixTime)
  {
    SendBodyFields(cfg, authType, token, sha512, to, text, from, Scheduled(dateTime, now), unixTime);
    var d := Scheduled(dateTime, now);
    if d != MinValue {
      assert OptionalParams(cfg, d, unixTime)[0] == Param("time", Text.IntToString(unixTime(d)));
    }
  }
}
