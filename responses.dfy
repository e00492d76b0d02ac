/**
  How the provider reads the gateway's plain-text replies: split on "\n",
  `Convert.ToInt32` of the first line, comparison with the operation's success
  code, and the value each operation returns on a match, on a mismatch, when
  the first line is not a number, when the transport throws and when it
  hands back no response object or stream.
 */
module Responses {
  import opened Wrappers
  import Text

  // The response enumerations are `int` enums; their numeric values are not
  // part of this model, so each named member is a constant of unknown value
  // inside the 32-bit range.

  /** `ResponseOnSendRequest`. */
  newtype SendCode = x: int | Text.MinInt32 <= x <= Text.MaxInt32
  /** `ResponseOnStatusRequest`. */
  newtype StatusCode = x: int | Text.MinInt32 <= x <= Text.MaxInt32
  /** `ResponseOnAuthRequest`. */
  newtype AuthCode = x: int | Text.MinInt32 <= x <= Text.MaxInt32

  const MessageAccepted: SendCode
  const SendError: SendCode
  const MessageRecieved: StatusCode
  const MethodNotFound: StatusCode
  const MessageNotFoundOrError: StatusCode
  const AuthDone: AuthCode
  const AuthError: AuthCode
  /** The `Done` members of `ResponseOnCostRequest`, `ResponseOnBalanceRequest`,
      `ResponseOnLimitRequest`, `ResponseOnSendersRequest`, `ResponseOnStoplistAddRequest`,
      `ResponseOnStoplistDeleteRequest` and `ResponseOnStoplistGetRequest`. */
  const CostDone: int
  const BalanceDone: int
  const LimitDone: int
  const SendersDone: int
  const StoplistAddDone: int
  const StoplistDeleteDone: int
  const StoplistGetDone: int

  /** What the HTTP exchange yields: an exception (connection, protocol or status failure,
      or a null stream handed to a `StreamReader`), `NoBody`, or the text of the body.
      `NoBody` is the null response object a POST operation tests for, and the null
      response stream a GET operation tests for. */
  datatype Reply = Thrown | NoBody | Body(text: string)

  /** `GetToken`: the body of the token endpoint's reply as it is, or `""` when the request
      throws or no stream came back. */
  function TokenReply(reply: Reply): (token: string)
    ensures reply.Body? ==> token == reply.text
    ensures !reply.Body? ==> token == ""
  {
    if reply.Body? then reply.text else ""
  }

  /** `answer.Split("\n")[0]`. */
  function FirstLine(answer: string): (line: string)
    ensures '\n' !in line && line <= answer
  {
    Text.FirstPiece(answer, '\n')
  }

  /** `Convert.ToInt32(lines[0])`; `None` stands for the exception it throws. */
  function FirstCode(answer: string): (code: Option<int>)
    ensures code.Some? ==> |answer| > 0 && Text.MinInt32 <= code.value <= Text.MaxInt32
  {
    Text.ParseInt32(FirstLine(answer))
  }

  /** The whole answer when its first line is the success code, otherwise `""`
      (a mismatch and an unreadable first line alike). */
  function AnswerIfCode(answer: string, success: int): (r: string)
    ensures r == "" || r == answer
    ensures r != "" <==> FirstCode(answer) == Some(success)
  {
    if FirstCode(answer) == Some(success) then answer else ""
  }

  /** `Send` and `SendMultiple`: the trimmed answer when its first line is `MessageAccepted`,
      `""` otherwise or when anything throws, and `null` (`None`) when no response object came back. */
  function SendReply(reply: Reply): (r: Option<string>)
    ensures r.None? <==> reply.NoBody?
    ensures reply.Thrown? ==> r == Some("")
    ensures reply.Body? ==> r.Some? && (r.value == "" || r.value == Text.Trim(reply.text))
    ensures reply.Body? ==> (r.value != "" <==> FirstCode(Text.Trim(reply.text)) == Some(MessageAccepted as int))
  {
    match reply
    case Thrown => Some("")
    case NoBody => None
    case Body(text) => Some(AnswerIfCode(Text.Trim(text), MessageAccepted as int))
  }

  /** `CheckCost`, `CheckBalance`, `CheckLimit`, `CheckSenders`, `StoplistGet`: the untrimmed
      answer when its first line is the operation's `Done` code, `""` in every other case. */
  function ReadReply(reply: Reply, done: int): (r: string)
    ensures r != "" <==> reply.Body? && FirstCode(reply.text) == Some(done)
    ensures r != "" ==> r == reply.text
  {
    match reply
    case Body(text) => AnswerIfCode(text, done)
    case _ => ""
  }

  /** `CheckStatus`: the status code on the first line (`MessageRecieved` when it is that one,
      the raw number cast to the enum otherwise); `MessageNotFoundOrError` when anything throws,
      an unreadable first line included; the initial `MethodNotFound` when no stream came back. */
  function StatusReply(reply: Reply): (r: StatusCode)
    ensures reply.Thrown? ==> r == MessageNotFoundOrError
    ensures reply.NoBody? ==> r == MethodNotFound
    ensures reply.Body? && FirstCode(reply.text).Some? ==> r as int == FirstCode(reply.text).value
    ensures reply.Body? && FirstCode(reply.text).None? ==> r == MessageNotFoundOrError
  {
    match reply
    case Thrown => MessageNotFoundOrError
    case NoBody => MethodNotFound
    case Body(text) =>
      match FirstCode(text)
      case Some(code) => if code == MessageRecieved as int then MessageRecieved else code as StatusCode
      case None => MessageNotFoundOrError
  }

  /** `AuthCheck`: the code on the first line (`Done` when it is that one, the raw number cast
      to the enum otherwise); `Error` when anything throws or no stream came back. */
  function AuthReply(reply: Reply): (r: AuthCode)
    ensures !reply.Body? ==> r == AuthError
    ensures reply.Body? && FirstCode(reply.text).Some? ==> r as int == FirstCode(reply.text).value
    ensures reply.Body? && FirstCode(reply.text).None? ==> r == AuthError
  {
    match reply
    case Body(text) =>
      (match FirstCode(text)
       case Some(code) => if code == AuthDone as int then AuthDone else code as AuthCode
       case None => AuthError)
    case _ => AuthError
  }

  /** `StoplistAdd` and `StoplistDelete`: true exactly when the trimmed answer's first line
      is the operation's `Done` code. */
  function StoplistReply(reply: Reply, done: int): (r: bool)
    ensures r <==> reply.Body? && FirstCode(Text.Trim(reply.text)) == Some(done)
  {
    match reply
    case Body(text) => FirstCode(Text.Trim(text)) == Some(done)
    case _ => false
  }

  /** `SendByEmail`: `MessageAccepted` when the SMTP submission went through, `Error` otherwise. */
  function MailReply(submitted: bool): (r: SendCode)
    ensures submitted ==> r == MessageAccepted
    ensures !submitted ==> r == SendError
  {
    if submitted then MessageAccepted else SendError
  }

  /** An answer whose first line is the decimal code, possibly followed by number white space
      such as the `\r` of a CRLF line ending, reads back as that code, whatever follows. */
  lemma CodeLineReadsBack(code: int, pad: string, payload: string)
    requires Text.MinInt32 <= code <= Text.MaxInt32
    requires forall k :: 0 <= k < |pad| ==> Text.IsNumberWhite(pad[k]) && pad[k] != '\n'
    ensures FirstCode(Text.IntToString(code) + pad + "\n" + payload) == Some(code)
  {
    var line := Text.IntToString(code) + pad;
    assert '\n' !in line by {
      Text.IntToStringHasNoSeparator(code, '\n');
      assert forall k :: 0 <= k < |line| ==> line[k] == if k < |Text.IntToString(code)| then Text.IntToString(code)[k] else pad[k - |Text.IntToString(code)|];
    }
    FirstLineBefore(line, payload);
    assert "" + Text.IntToString(code) + pad == line;
    Text.ParsePaddedIntToString("", code, pad);
  }

  /** The first line of an answer is the text before its first line break. */
  lemma FirstLineBefore(line: string, payload: string)
    requires '\n' !in line
    ensures FirstLine(line + "\n" + payload) == line
  {
    Text.IndexAfterPrefix(line, '\n', payload);
    assert (line + "\n" + payload)[..|line|] == line;
  }

  /** A GET answer is not trimmed, yet a CRLF answer still reads as its code: the `\r` left at
      the end of the first line is white space to the parse. */
  lemma CrLfAnswerReadsBack(code: int, payload: string)
    requires Text.MinInt32 <= code <= Text.MaxInt32
    ensures var answer := Text.IntToString(code) + "\r\n" + payload;
      FirstCode(answer) == Some(code) && ReadReply(Body(answer), code) == answer
  {
    assert Text.IntToString(code) + "\r\n" + payload == Text.IntToString(code) + "\r" + "\n" + payload;
    CodeLineReadsBack(code, "\r", payload);
  }

  /** A first line holding a character that is neither a digit, a sign nor number white space
      (a letter, say) carries no code: status checks give `MessageNotFoundOrError`, credential
      checks `Error`, and the read operations `""`. */
  lemma NonNumericFirstLine(answer: string, k: int)
    requires 0 <= k < |FirstLine(answer)| && !Text.NumberChar(FirstLine(answer)[k])
    ensures FirstCode(answer) == None
    ensures StatusReply(Body(answer)) == MessageNotFoundOrError
    ensures AuthReply(Body(answer)) == AuthError
    ensures forall done :: ReadReply(Body(answer), done) == ""
  {
    Text.ParseRejectsStray(FirstLine(answer), k);
  }

  /** Conversely, an answer that carries a code has a first line of the one shape the parse
      accepts: number white space, an optional sign, digits and number white space, and the
      code is the signed value of those digits. Any other first line (`"+"`, `"1 2"`, `"5-"`)
      sends the classifiers to their error values. */
  lemma CodedFirstLine(answer: string) returns (w1: string, sign: string, digits: string, w2: string)
    requires FirstCode(answer).Some?
    ensures FirstLine(answer) == w1 + sign + digits + w2
    ensures forall k :: 0 <= k < |w1| ==> Text.IsNumberWhite(w1[k])
    ensures forall k :: 0 <= k < |w2| ==> Text.IsNumberWhite(w2[k])
    ensures sign == "" || sign == "+" || sign == "-"
    ensures |digits| > 0 && Text.AllDigits(digits)
    ensures FirstCode(answer).value ==
      if sign == "-" then -(Text.DigitsValue(digits) as int) else Text.DigitsValue(digits)
  {
    w1, sign, digits, w2 := Text.ParsedShape(FirstLine(answer));
  }

  /** An empty or blank first line carries no code either. */
  lemma BlankFirstLine(answer: string)
    requires forall k :: 0 <= k < |FirstLine(answer)| ==> Text.IsNumberWhite(FirstLine(answer)[k])
    ensures FirstCode(answer) == None
    ensures StatusReply(Body(answer)) == MessageNotFoundOrError
    ensures AuthReply(Body(answer)) == AuthError
    ensures forall done :: ReadReply(Body(answer), done) == ""
  {
    Text.ParseRejectsBlank(FirstLine(answer));
  }

  /** A send answer `"<MessageAccepted>\n<ids>"` is returned whole; one whose first line is
      any other code is turned into `""`. */
  lemma SendAnswerScenarios(code: int, payload: string)
    requires Text.MinInt32 <= code <= Text.MaxInt32
    requires |payload| > 0 && !Text.IsWhiteSpace(payload[|payload| - 1])
    ensures var answer := Text.IntToString(code) + "\n" + payload;
      SendReply(Body(answer)) == if code == MessageAccepted as int then Some(answer) else Some("")
  {
    CodeAnswerIsTrimmed(code, payload);
    assert Text.IntToString(code) + "" + "\n" + payload == Text.IntToString(code) + "\n" + payload;
    CodeLineReadsBack(code, "", payload);
  }

  /** A code line followed by a payload that does not end in white space is left as it is by `Trim()`. */
  lemma CodeAnswerIsTrimmed(code: int, payload: string)
    requires |payload| > 0 && !Text.IsWhiteSpace(payload[|payload| - 1])
    ensures Text.Trim(Text.IntToString(code) + "\n" + payload) == Text.IntToString(code) + "\n" + payload
  {
    var line := Text.IntToString(code);
    var answer := line + "\n" + payload;
    assert answer[0] == line[0];
    assert answer[|answer| - 1] == payload[|payload| - 1];
  }
}
