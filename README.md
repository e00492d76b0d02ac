# SmsRu gateway client — a Dafny model

This project models the core of the SmsRu client library: the `SmsRuProvider` operations
that send text messages through the SMS.RU HTTP gateway or its e-mail-to-SMS gateway, query a
message's status, the cost, the balance, the daily limit and the approved senders, check the
credentials, and manage the stop list. It also models the `SmsRuConfiguration` constructor,
whose datatype also stands for the `ISmsRuConfiguration` the provider reads, and the
`ConvertersHelper.ByteArrayToHex` encoder behind the SHA-512 signature.

Every HTTP operation follows the same steps (`SendByEmail` instead sends one mail and fetches no token):

1. validate its arguments;
2. fetch a fresh token from `auth/get_token`;
3. build the authentication fragment (`api_id=…`, or `login=…&token=…&sha512=…` with the
   lower-cased hexadecimal SHA-512 of password‖token, or of password‖token‖api id);
4. append its own `&key=value` pairs;
5. POST the body or GET the link;
6. classify the first line of the answer as a numeric response code.

The model keeps this structure. What the provider cannot compute itself comes in through an
`Environment` value:

- the clock;
- SHA-512;
- the Unix-time conversion;
- the gateway's answer to each request;
- whether the mail server accepts a submission.

Each operation returns the requests it issued, in order, together with its result. The loops
of the source are methods, each proved against a function that states its result:

- the recipient join;
- the `multi[...]` batch;
- the conditional optional parameters;
- the hexadecimal encoder.

Lemmas about those functions state the properties the protocol depends on:

- each body, split on `&` and `=`, gives exactly the pairs that were meant, in order;
- a receiver that form-decodes the body gets those pairs back when no key or value holds `+`, `%` or `#`;
- each key occurs the expected number of times;
- the signature decodes to the SHA-512 digest;
- the hex encoding round-trips;
- recipients read back from the joined list;
- each answer classifies into the code its first line carries.

Modules: `Wrappers` (Option, Result), `Text` (.NET string operations), `Hex` (the encoder),
`Parameters` (`key=value&…` strings), `Receiver` (what a form-decoding receiver reads),
`Configuration`, `Auth` (the signed fragment), `Responses` (answer classification),
`Requests` (request texts), `Provider` (the operations).

The provider holds an `ISmsRuConfiguration` (`SmsRu/SmsRuProvider.cs:41-44`). In the model
the operations take a `Configuration.SmsRuConfiguration` value standing for that interface, with
any property values. They therefore do not require `Valid()`, which describes only what the
`SmsRuConfiguration` constructor builds.

The code has no empty-token check: it signs and sends with an empty token
(`SmsRu/SmsRuProvider.cs:118-128`), and so does the model (`Auth.AuthFragmentShape`).

## Model

| member | source | states |
|---|---|---|
| Text.Split | SmsRu/SmsRuProvider.cs:165 | splitting an answer on the line separator gives at least one piece, no piece contains the separator, and joining the pieces with the separator gives the answer back |
| Text.FirstPiece | SmsRu/SmsRuProvider.cs:165-166 | the first line is a prefix of the answer free of `\n`; it is the whole answer exactly when the answer has no `\n`, and otherwise a `\n` follows it |
| Text.JoinLength | SmsRu/SmsRuProvider.cs:108-112 | the comma-joined recipient list holds every character of every number plus one comma between neighbours |
| Text.IsWhiteSpace | SmsRu/SmsRuProvider.cs:157 | every character the integer parse skips as white space is white space to `Trim` too, and no digit or sign is |
| Text.TrimBoth | SmsRu/SmsRuProvider.cs:157 | trimming by a character class keeps a contiguous slice of the text, removes only characters of the class before and after it, and leaves a slice that neither starts nor ends with one |
| Text.Trim | SmsRu/SmsRuProvider.cs:157 | the trimmed answer is a slice of the answer; every character removed before or after it is white space; it neither starts nor ends with white space; an answer already free of surrounding white space is unchanged |
| Text.TrimIdempotent | SmsRu/SmsRuProvider.cs:157 | trimming an answer twice gives the same text as trimming it once |
| Text.Lower | SmsRu/SmsRuProvider.cs:120-121 | lower-casing keeps the length and lowers every character in place |
| Text.IntToString | SmsRu/SmsRuProvider.cs:132 | the decimal rendering of a non-negative number is a non-empty run of digits, and that of a negative number is `-` followed by digits |
| Text.StripNumberWhite | SmsRu/SmsRuProvider.cs:166 | the parse first cuts a slice out of the text, removing only U+0009..U+000D and spaces around it, and the slice neither starts nor ends with one |
| Text.ParseSigned | SmsRu/SmsRuProvider.cs:166 | the stripped number parses only when non-empty and only to a value inside the 32-bit range |
| Text.ParseInt32 | SmsRu/SmsRuProvider.cs:166 | the integer parse of a first line succeeds only on non-empty text and only with a value inside the 32-bit range |
| Text.ParseSignedDigits | SmsRu/SmsRuProvider.cs:166 | white space, an optional `+` or `-`, decimal digits (leading zeros allowed) and white space parse to the signed value of the digits when it lies in the 32-bit range, and fail otherwise |
| Text.ParseRejectsStray | SmsRu/SmsRuProvider.cs:166 | text holding any character that is not a digit, a sign or the parse's white space fails to parse |
| Text.SignedRejectsStray | SmsRu/SmsRuProvider.cs:166 | a number stripped of its white space fails to parse when it holds a character that is not a digit, save for a sign in first place |
| Text.SignedShape | SmsRu/SmsRuProvider.cs:166 | a stripped number that parses is an optional `+` or `-` followed by a non-empty run of digits, and its value is the signed value of those digits |
| Text.ParsedShape | SmsRu/SmsRuProvider.cs:166 | conversely to `ParseSignedDigits`, text that parses is exactly white space, an optional sign, a non-empty run of digits and white space, and parses to the signed value of those digits |
| Text.MalformedNumbers | SmsRu/SmsRuProvider.cs:166 | a lone sign, two numbers, a doubled sign and a trailing sign (`"+"`, `"-"`, `"1 2"`, `"--5"`, `"5-"`) fail to parse, although every character is one the parse accepts somewhere |
| Text.ParseRejectsBlank | SmsRu/SmsRuProvider.cs:166 | empty text, or text made only of the parse's white space, fails to parse |
| Text.ParsePaddedIntToString | SmsRu/SmsRuProvider.cs:166 | the decimal rendering of any 32-bit value, with the parse's white space on either side, parses to that value |
| Text.ParseIntToString | SmsRu/SmsRuProvider.cs:166 | parsing the decimal rendering of any 32-bit code gives that code back |
| Text.IntToStringHasNoSeparator | SmsRu/SmsRuProvider.cs:132 | the rendered Unix time contains no `&` or `=`, so it cannot split the `time` pair |
| Hex.FourHalvings | SmsRu/Helpers/ConvertersHelper.cs:18 | the arithmetic right shift by k is four halvings followed by a shift by k-4 |
| Hex.ShiftRightOfSign | SmsRu/Helpers/ConvertersHelper.cs:19 | shifting -1 or 0 right by any amount gives it back |
| Hex.SignOfSmall | SmsRu/Helpers/ConvertersHelper.cs:19 | a value in [-16, 16) shifted right by 4 or more (31 in the encoder) is -1 when negative and 0 otherwise |
| Hex.LowMask | SmsRu/Helpers/ConvertersHelper.cs:20 | the two's-complement `&` of a byte with `0xF` is the byte modulo 16 |
| Hex.NibbleCorrection | SmsRu/Helpers/ConvertersHelper.cs:19 | the shifted and masked correction term is -7 for a nibble below ten and 0 otherwise |
| Hex.NibbleChar | SmsRu/Helpers/ConvertersHelper.cs:19 | the branch-free character formula writes `'0'`..`'9'` for nibbles 0..9 and `'A'`..`'F'` for 10..15 |
| Hex.High | SmsRu/Helpers/ConvertersHelper.cs:18 | shifting a byte right by four gives its high nibble, the byte divided by 16 |
| Hex.Low | SmsRu/Helpers/ConvertersHelper.cs:20 | masking a byte with 0xF gives its low nibble, the byte modulo 16 |
| Hex.HexOf | SmsRu/Helpers/ConvertersHelper.cs:14 | the encoding of n bytes is 2n characters long |
| Hex.HexOfAt | SmsRu/Helpers/ConvertersHelper.cs:16-22 | character 2i is the digit of byte i's high nibble and character 2i+1 the digit of its low nibble |
| Hex.HexAlphabet | SmsRu/Helpers/ConvertersHelper.cs:19-21 | every character the encoder writes is one of `0123456789ABCDEF` |
| Hex.LowerHexAlphabet | SmsRu/SmsRuProvider.cs:120-121 | after lower-casing, every character of the encoding is one of `0123456789abcdef` |
| Hex.DecodeHexOf | SmsRu/Helpers/ConvertersHelper.cs:12-24 | decoding the encoder's output recovers the bytes |
| Hex.DecodeLowerHexOf | SmsRu/SmsRuProvider.cs:120-121 | decoding the lower-cased encoding, as it is sent, also recovers the bytes |
| Hex.HexOfInjective | SmsRu/Helpers/ConvertersHelper.cs:12-24 | two byte sequences with the same encoding are equal |
| Hex.ByteArrayToHex | SmsRu/Helpers/ConvertersHelper.cs:12-24 | the loop over the array fills the character buffer with exactly the encoding of the array's contents |
| Parameters.ParseSerialize | SmsRu/SmsRuProvider.cs:130 | a non-empty list of pairs whose keys hold no `&` or `=` and whose values hold no `&` is recovered by splitting its `k=v&k=v` text on `&` and `=`, as the same list in the same order |
| Parameters.SerializeIsJoin | SmsRu/SmsRuProvider.cs:130 | the parameter text is the `key=value` texts joined by `&` |
| Parameters.PrefixedConcat | SmsRu/SmsRuProvider.cs:130-138 | appending two runs of `&key=value` pairs one after the other appends the concatenated run |
| Configuration.Create | SmsRu/SmsRuConfiguration.cs:25-53 | every property returns the constructor argument it was given, and the gateway address is the api id followed by `@sms.ru` |
| Configuration.ApiIdOfGateEmail | SmsRu/SmsRuConfiguration.cs:44 | an address ending in `@sms.ru` is the returned api id followed by `@sms.ru` |
| Auth.SignedHash | SmsRu/SmsRuProvider.cs:120-121 | the signature is 128 lower-case hexadecimal characters that decode to the SHA-512 digest of the signed text |
| Auth.GetSHA512Hash | SmsRu/Helpers/HashCodeHelper.cs:32-39 | the digest copied into a byte array and run through the encoder is the upper-case encoding of the digest, and lower-casing it gives the signature |
| Auth.AuthParams | SmsRu/SmsRuProvider.cs:123-128 | every authentication pair is keyed `api_id`, `login`, `token` or `sha512` |
| Auth.AuthFragment | SmsRu/SmsRuProvider.cs:123-128 | a write operation's fragment is empty exactly for a mode that is none of the three |
| Auth.AuthFragmentReadsBack | SmsRu/SmsRuProvider.cs:123-128 | for a named mode whose values hold no separator, splitting the fragment on `&` and `=` gives back the mode's authentication pairs |
| Auth.AuthLink | SmsRu/SmsRuProvider.cs:392-397 | a read operation's link is empty for a mode that is none of the three, and otherwise starts with `<url>?` and continues past it |
| Auth.AuthFragmentShape | SmsRu/SmsRuProvider.cs:123-128 | `Simple` sends `api_id=<id>`; `Strong` and `StrongApi` send login, token (even when empty) and the signature of password‖token, respectively password‖token‖api id; any other mode sends nothing |
| Responses.TokenReply | SmsRu/SmsRuProvider.cs:729-753 | the token is the body of the token answer, and `""` when the request throws or no stream comes back |
| Responses.FirstLine | SmsRu/SmsRuProvider.cs:165 | the first line holds no `\n` and is a prefix of the answer |
| Responses.FirstCode | SmsRu/SmsRuProvider.cs:165-166 | a code is read only from a non-empty answer and lies in the 32-bit range |
| Responses.AnswerIfCode | SmsRu/SmsRuProvider.cs:165-179 | the answer is returned whole exactly when its first line parses to the success code, and `""` otherwise |
| Responses.SendReply | SmsRu/SmsRuProvider.cs:152-187 | a send returns null exactly when no response object comes back, `""` after an exception, and otherwise the trimmed answer exactly when its first line is `MessageAccepted`, else `""` |
| Responses.ReadReply | SmsRu/SmsRuProvider.cs:481-500 | a read operation returns the untrimmed answer exactly when a body came back whose first line is the operation's `Done` code, and `""` in every other case |
| Responses.StatusReply | SmsRu/SmsRuProvider.cs:376-440 | `MessageNotFoundOrError` after an exception or an unparsable first line, `MethodNotFound` when no stream comes back, and otherwise the code the first line carries |
| Responses.AuthReply | SmsRu/SmsRuProvider.cs:760-823 | `Error` after an exception, with no stream, or with an unparsable first line, and otherwise the code the first line carries |
| Responses.StoplistReply | SmsRu/SmsRuProvider.cs:873-897 | a stop-list change succeeds exactly when a response came back whose trimmed answer's first line is the operation's `Done` code |
| Responses.MailReply | SmsRu/SmsRuProvider.cs:350-365 | the e-mail send reports `MessageAccepted` when the mail server takes the message and `Error` otherwise |
| Responses.CodeLineReadsBack | SmsRu/SmsRuProvider.cs:165-166 | an answer whose first line is the decimal rendering of a 32-bit code, followed by any of the parse's white space other than `\n` (a `\r`, say), classifies as that code, whatever follows the line break |
| Responses.CrLfAnswerReadsBack | SmsRu/SmsRuProvider.cs:482-490 | an untrimmed `<code>\r\n<payload>` answer reads as its code, and a read operation whose `Done` is that code returns it whole |
| Responses.NonNumericFirstLine | SmsRu/SmsRuProvider.cs:414-438 | a first line holding a character other than a digit, a sign or the parse's white space carries no code: a status check gives `MessageNotFoundOrError`, a credential check `Error`, and every read `""` |
| Responses.CodedFirstLine | SmsRu/SmsRuProvider.cs:165-166 | an answer that carries a code has a first line made of white space, an optional sign, a non-empty run of digits and white space, and the code is the signed value of those digits; any other first line sends the classifiers to their error values |
| Responses.BlankFirstLine | SmsRu/SmsRuProvider.cs:414-438 | an empty or blank first line carries no code, with the same three outcomes |
| Responses.SendAnswerScenarios | SmsRu/SmsRuProvider.cs:157-179 | an answer made of a code line and a non-empty payload that does not end in white space (so that trimming leaves it alone) is returned whole exactly when the code is `MessageAccepted`, and as `""` for every other code |
| Requests.Scheduled | SmsRu/SmsRuProvider.cs:96-97 | a `MinValue` date is replaced by the clock, any other date is kept, and the result is `MinValue` only when both are |
| Requests.JoinRecipients | SmsRu/SmsRuProvider.cs:108-112 | appending each number and a comma, then cutting the last character, gives the numbers joined by commas |
| Requests.RecipientsReadBack | SmsRu/SmsRuProvider.cs:108-112 | numbers without commas can be recovered from the joined list, in order |
| Requests.MultiParams | SmsRu/SmsRuProvider.cs:229-232 | one `multi[<phone>]=<text>` pair per entry, at the entry's position |
| Requests.MultiRecipients | SmsRu/SmsRuProvider.cs:229-232 | the loop writes exactly the `&`-prefixed `multi[...]` pairs of the entries, in enumeration order |
| Requests.OptionalParams | SmsRu/SmsRuProvider.cs:131-138 | there are at most four optional pairs |
| Requests.OptionalParamsCount | SmsRu/SmsRuProvider.cs:131-138 | `time` occurs once exactly when the date is not `MinValue`, `partner_id` once exactly when configured, `translit` and `test` once exactly when their flags are set, and no other key occurs |
| Requests.OptionalParamsValues | SmsRu/SmsRuProvider.cs:131-138 | every optional pair is keyed `time`, `partner_id`, `translit` or `test`, and carries the Unix time, the partner id or `1` respectively |
| Requests.OptionalParamsOrder | SmsRu/SmsRuProvider.cs:131-138 | the optional pairs appear in the order `time`, `partner_id`, `translit`, `test` |
| Requests.AppendOptionalParameters | SmsRu/SmsRuProvider.cs:131-138 | the four conditional appends extend the parameters by exactly the optional pairs, in order |
| Requests.FormBodyReadsBack | SmsRu/SmsRuProvider.cs:123-130 | for a named authentication mode and clean pairs, the body is the serialization of the authentication pairs followed by the fields, and splits on `&` and `=` back into that list |
| Requests.QueryLinkReadsBack | SmsRu/SmsRuProvider.cs:392-399 | for a named mode and clean pairs, a link is `<url>?` followed by a query that splits on `&` and `=` into the authentication pairs followed by the fields |
| Requests.SendFields | SmsRu/SmsRuProvider.cs:130-138 | a send's fields are the three fixed pairs and up to four optional ones |
| Requests.SendFieldsCount | SmsRu/SmsRuProvider.cs:130-138 | a non-authentication key occurs in a send body once per fixed pair carrying it plus its optional count |
| Requests.SendPairCounts | SmsRu/SmsRuProvider.cs:130 | a send body carries exactly one `to`, one `text` and one `from` pair |
| Requests.SendOptionalCounts | SmsRu/SmsRuProvider.cs:131-138 | a send body carries each optional pair exactly when its condition holds |
| Requests.SendBodyFields | SmsRu/SmsRuProvider.cs:130-138 | splitting a clean send body on `&` and `=` gives the authentication pairs, `to`, `text`, `from` and the optional pairs, each key with the expected count |
| Requests.MultiKeysAbsent | SmsRu/SmsRuProvider.cs:231 | no `multi[...]` key collides with a plain key of the send operations |
| Requests.AuthKeysAbsent | SmsRu/SmsRuProvider.cs:123-128 | no authentication pair carries a key other than the four authentication keys |
| Requests.SendMultipleFields | SmsRu/SmsRuProvider.cs:250-258 | a batch's fields are `from`, one pair per entry and up to four optional ones |
| Requests.SendMultipleFieldsCount | SmsRu/SmsRuProvider.cs:250-258 | a plain key occurs in a batch body once if it is `from`, plus its optional count |
| Requests.SendMultipleLayout | SmsRu/SmsRuProvider.cs:250 | the batch pairs sit in order: authentication pairs, `from`, then entry i at position auth+1+i, then the optional pairs |
| Requests.SendMultipleBodyFields | SmsRu/SmsRuProvider.cs:250-258 | splitting a clean batch body on `&` and `=` gives the authentication pairs, `from`, one `multi[...]` pair per entry and the optional pairs, in this order, with `from` right after the authentication pairs and entry i at the position after it plus i |
| Requests.SendMultiplePairCounts | SmsRu/SmsRuProvider.cs:250-258 | the pairs of a batch body hold exactly one `from`, and each optional key once exactly when its condition holds |
| Requests.SendMultipleBodyCounts | SmsRu/SmsRuProvider.cs:250-258 | a batch body carries exactly one `from` and each optional pair exactly when its condition holds |
| Requests.SendTimeParameter | SmsRu/SmsRuProvider.cs:96-132 | because a `MinValue` date is replaced by the clock first, every send body carries exactly one `time` pair, holding the requested moment or now, unless the clock itself reads `MinValue` |
| Receiver.Received | SmsRu/SmsRuProvider.cs:144 | a form-decoding receiver gets one pair per `&`-separated piece of the body |
| Receiver.FormDecodeUnencoded | SmsRu/SmsRuProvider.cs:144 | form-decoding text without `+` or `%` leaves it unchanged |
| Receiver.ReceivedSerialize | SmsRu/SmsRuProvider.cs:130-144 | a non-empty list of clean pairs without `+`, `%` or `#` is serialized unencoded and form-decoded, as a body or as a query, back into the same list |
| Receiver.PlusArrivesAsSpace | SmsRu/SmsRuProvider.cs:130 | a value starting with `+`, such as an international number, is sent unencoded and a form-decoding receiver reads a space in its place |
| Receiver.FormBodyReceived | SmsRu/SmsRuProvider.cs:123-147 | for a named mode and plain pairs, a form-decoding receiver of a POST body gets the authentication pairs followed by the fields |
| Receiver.QueryLinkReceived | SmsRu/SmsRuProvider.cs:392-399 | for a named mode and plain pairs, a link is `<url>?` and the body text, and a receiver decoding its query gets the authentication pairs followed by the fields |
| Provider.FetchToken | SmsRu/SmsRuProvider.cs:729-753 | the token is the token endpoint's body as it is, and `""` when that request throws or no stream comes back |
| Provider.LinkReply | SmsRu/SmsRuProvider.cs:402-403 | a read operation's answer is the gateway's reply to its link, and an exception whenever the mode is none of the three, whatever the link, since it is then not an absolute URI |
| Provider.LinkRequests | SmsRu/SmsRuProvider.cs:402-403 | a read operation issues the token request first, then a GET of its link exactly when the mode is one of the three |
| Provider.AuthenticationFragment | SmsRu/SmsRuProvider.cs:120-128 | hashing through the array encoder, lower-casing, and the three independent mode tests produce exactly the mode's authentication fragment |
| Provider.AuthenticationLink | SmsRu/SmsRuProvider.cs:389-397 | a read operation's link starts with `<url>?` and the fragment for a named mode, and is empty for any other mode |
| Provider.Send | SmsRu/SmsRuProvider.cs:87-190 | fewer than 1 recipient throws `ArgumentNull("to")` and more than 100 throws `ArgumentOutOfRange("to")`; otherwise one token request, then one POST to `sms/send` whose body is the fragment, the fixed pairs and the optional pairs for the scheduled moment, with the send classification of the answer |
| Provider.SendMultiple | SmsRu/SmsRuProvider.cs:207-302 | the same bounds on the entries; otherwise a token request, then one POST to `sms/send` whose body is the fragment, `from`, the `multi[...]` pairs and the optional pairs, with the send classification of the answer |
| Provider.SendByEmail | SmsRu/SmsRuProvider.cs:304-368 | fewer than 1 or more than 50 recipients throw; otherwise exactly one mail, from the configured address to the gateway address, with the joined recipients as subject and the text as body, over the configured SMTP server with a 20000 ms timeout, and no token request |
| Provider.CheckStatus | SmsRu/SmsRuProvider.cs:374-442 | a token request, then a GET of `sms/status?<auth>&id=<id>` (none for an unnamed mode), with the status classification of the answer |
| Provider.CheckCost | SmsRu/SmsRuProvider.cs:447-514 | a token request, then a GET of `sms/cost?<auth>&to=<to>&text=<text>`, returning the answer exactly when its first line is the cost operation's `Done` |
| Provider.AuthorizedRead | SmsRu/SmsRuProvider.cs:519-585 | a token request, then a GET of the authentication link alone, returning the answer exactly when its first line is the given `Done` code |
| Provider.CheckBalance | SmsRu/SmsRuProvider.cs:519-585 | the read of `my/balance` with its `Done` code |
| Provider.CheckLimit | SmsRu/SmsRuProvider.cs:590-656 | the read of `my/limit` with its `Done` code |
| Provider.CheckSenders | SmsRu/SmsRuProvider.cs:661-724 | the read of `my/senders` with its `Done` code |
| Provider.StoplistGet | SmsRu/SmsRuProvider.cs:984-1048 | the read of `stoplist/get` with its `Done` code |
| Provider.AuthCheck | SmsRu/SmsRuProvider.cs:758-826 | a token request, then a GET of `auth/check?<auth>`, with the credential-check classification of the answer |
| Provider.StoplistAdd | SmsRu/SmsRuProvider.cs:831-908 | an empty note throws `ArgumentNull("text")` before any request; otherwise a token request and one POST to `stoplist/add` with the phone and note pairs, succeeding exactly on the add `Done` code |
| Provider.StoplistDelete | SmsRu/SmsRuProvider.cs:910-982 | a token request and one POST to `stoplist/del` with the phone pair, succeeding exactly on the delete `Done` code |

## Left out

- HTTP transport: `WebRequest`, the response streams and the request headers are not modelled. The gateway is the function `Environment.server` from a request to `Thrown`, `NoBody` or `Body(text)`. For a POST, `NoBody` is the null response object the code tests for; a null stream there reaches `new StreamReader(null)`, which throws, so it is `Thrown`. For a GET, `NoBody` is the null response stream the code tests for. UTF-8 encoding of the body and `ContentLength` are not modelled.
- `GetToken` (`SmsRu/SmsRuProvider.cs:729-753`) is modelled by the function `Provider.FetchToken` over the same `server`. Every HTTP operation gets the token from one call, as the source does.
- SMTP: `SmtpClient.Send` is the predicate `Environment.mailer`, true when the server accepts the message and false when the submission throws. `DeliveryMethod`, `IsBodyHtml` and `BodyEncoding` are not recorded.
- Logging: every `ILogger` call is left out. None of them affects a result.
- SHA-512: the digest of the UTF-8 bytes is the function `Environment.sha512`, returning 64 bytes. The hash algorithm itself is not modelled.
- `TimeHelper.GetUnixTime` is not part of this model. It is the function `Environment.unixTime`, and its result is rendered in decimal.
- `DateTime.Now` is `Environment.now`. A `DateTime` is its tick count, and `MinValue` is tick zero.
- Overloads of `Send` and `SendMultiple` (`SmsRu/SmsRuProvider.cs:52-85`, `192-205`): they only supply default arguments. The `Send` overloads pass `DateTime.MinValue`, `Strong` or a one-element recipient list; the `SendMultiple` overloads pass `DateTime.Now` and `Strong`. A caller of the model passes those values itself.
- Null arguments: null strings and null array items are outside the model. All values are present.
- Culture: `ToLower` is modelled on ASCII letters, which is all the encoder produces. `Convert.ToInt32` accepts `[white space][sign]digits[white space]` with the .NET integer white space. Trailing NUL characters and culture-specific signs are not modelled.
- URL encoding: the source performs none, and neither does the model. Splitting a body back into pairs needs values free of `&` (keys also free of `=`). A receiver that form-decodes the body, as the declared content type asks, gets the pairs back when no key or value holds `+`, `%` or `#` (`Receiver.ReceivedSerialize`). A `+`, as in an international number, arrives as a space (`Receiver.PlusArrivesAsSpace`). `Receiver.FormDecode` decodes `%hh` as one character, not as UTF-8 bytes.
- `Dictionary` enumeration order: `SendMultiple` takes its entries as a sequence, in the order the dictionary enumerates them. Key uniqueness is not used.
- Response enumerations: the numeric values of the response codes are not part of this model. They are constants without a value, and the proofs hold for every choice.
- Unnamed authentication modes: for a mode that is none of `Simple`, `Strong`, `StrongApi`, a read operation's link is not an absolute URI. Creating the request throws, so only the token request is issued and the result is the exception path's.
- `CallbackHandler` and the Vodovoz adapter are not part of this model.
