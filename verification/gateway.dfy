/** The push gateway as the dispatcher sees it: one multicast request,
    one response per token, and the rule that picks the tokens to delete. */
module Gateway {
  import opened Options
  import opened Sequences
  import opened TokenStore
  import opened Payloads

  /** The two error codes that mean the token will never be accepted again. */
  const InvalidRegistrationToken: string := "messaging/invalid-registration-token"
  const RegistrationTokenNotRegistered: string := "messaging/registration-token-not-registered"

  /** One entry of the batch response; `errorCode` is `error?.code`. */
  datatype SendResponse = SendResponse(success: bool, errorCode: Option<string>)

  /** The multicast request: all tokens and the one payload. */
  datatype SendRequest = SendRequest(tokens: seq<Token>, payload: Payload)

  /** What the send call yields: the per-token responses, or a thrown error. */
  datatype GatewayReply = Replied(responses: seq<SendResponse>) | Unreachable

  /** The gateway answers every request with one response per token, in request order. */
  ghost predicate PreservesLength(gateway: SendRequest -> GatewayReply)
  {
    forall req :: gateway(req).Replied? ==> |gateway(req).responses| == |req.tokens|
  }

  /** The response says the token is dead: a failure carrying one of the two codes. */
  predicate IsPermanentFailure(r: SendResponse): (p: bool)
    ensures r.success ==> !p
    ensures r.errorCode.None? ==> !p
    ensures !r.success && r.errorCode.Some? ==>
              (p <==> r.errorCode.value in {InvalidRegistrationToken, RegistrationTokenNotRegistered})
  {
    && !r.success
    && r.errorCode.Some?
    && (r.errorCode.value == InvalidRegistrationToken || r.errorCode.value == RegistrationTokenNotRegistered)
  }

  /** `successCount` of the batch response. */
  function SuccessCount(rs: seq<SendResponse>): nat
  {
    if |rs| == 0 then 0 else (if rs[0].success then 1 else 0) + SuccessCount(rs[1..])
  }

  /** `failureCount` of the batch response. */
  function FailureCount(rs: seq<SendResponse>): nat
  {
    if |rs| == 0 then 0 else (if rs[0].success then 0 else 1) + FailureCount(rs[1..])
  }

  /** Every response is either a success or a failure. */
  lemma {:induction false} CountsPartition(rs: seq<SendResponse>)
    ensures SuccessCount(rs) + FailureCount(rs) == |rs|
  {
    if |rs| > 0 {
      CountsPartition(rs[1..]);
    }
  }

  /** The failure count is zero exactly when every response succeeded. */
  lemma {:induction false} NoFailuresMeansAllSucceeded(rs: seq<SendResponse>)
    ensures FailureCount(rs) == 0 <==> forall i :: 0 <= i < |rs| ==> rs[i].success
  {
    if |rs| > 0 {
      NoFailuresMeansAllSucceeded(rs[1..]);
      assert forall i :: 1 <= i < |rs| ==> rs[i] == rs[1..][i - 1];
    }
  }

  /** The tokens whose response is a permanent failure, in token order
      (`failedTokens`). Response `i` belongs to `tokens[i]`. */
  function InvalidTokens(tokens: seq<Token>, rs: seq<SendResponse>): (dead: seq<Token>)
    requires |tokens| == |rs|
    ensures |dead| <= |tokens|
    ensures forall t :: t in dead <==> exists i :: 0 <= i < |tokens| && tokens[i] == t && IsPermanentFailure(rs[i])
    decreases |tokens|
  {
    if |tokens| == 0 then []
    else
      var n := |tokens| - 1;
      var prefix := InvalidTokens(tokens[..n], rs[..n]);
      assert forall i :: 0 <= i < n ==> tokens[..n][i] == tokens[i] && rs[..n][i] == rs[i];
      prefix + (if IsPermanentFailure(rs[n]) then [tokens[n]] else [])
  }

  /** Without any failed response nothing is selected for deletion. */
  lemma NoFailuresNoInvalidTokens(tokens: seq<Token>, rs: seq<SendResponse>)
    requires |tokens| == |rs|
    requires FailureCount(rs) == 0
    ensures InvalidTokens(tokens, rs) == []
  {
    NoFailuresMeansAllSucceeded(rs);
    AllSucceededNoInvalidTokens(tokens, rs);
  }

  lemma {:induction false} AllSucceededNoInvalidTokens(tokens: seq<Token>, rs: seq<SendResponse>)
    requires |tokens| == |rs|
    requires forall i :: 0 <= i < |rs| ==> rs[i].success
    ensures InvalidTokens(tokens, rs) == []
    decreases |tokens|
  {
    if |tokens| > 0 {
      var n := |tokens| - 1;
      assert forall i :: 0 <= i < n ==> rs[..n][i] == rs[i];
      AllSucceededNoInvalidTokens(tokens[..n], rs[..n]);
    }
  }

  /** With distinct tokens, a token is selected exactly when its own response
      is a permanent failure: a success or any other error code keeps it. */
  lemma SelectedIffPermanent(tokens: seq<Token>, rs: seq<SendResponse>, i: nat)
    requires |tokens| == |rs|
    requires Distinct(tokens)
    requires i < |tokens|
    ensures tokens[i] in InvalidTokens(tokens, rs) <==> IsPermanentFailure(rs[i])
  {
  }

  /** The `forEach` over the responses that fills `failedTokens`. */
  method CollectFailedTokens(tokens: seq<Token>, responses: seq<SendResponse>) returns (failed: seq<Token>)
    requires |tokens| == |responses|
    ensures failed == InvalidTokens(tokens, responses)
  {
    failed := [];
    var idx := 0;
    while idx < |responses|
      invariant 0 <= idx <= |responses|
      invariant failed == InvalidTokens(tokens[..idx], responses[..idx])
    {
      var resp := responses[idx];
      if !resp.success {
        if resp.errorCode == Some(InvalidRegistrationToken) || resp.errorCode == Some(RegistrationTokenNotRegistered) {
          failed := failed + [tokens[idx]];
        }
      }
      assert tokens[..idx + 1][..idx] == tokens[..idx];
      assert responses[..idx + 1][..idx] == responses[..idx];
      idx := idx + 1;
    }
    assert tokens[..idx] == tokens && responses[..idx] == responses;
  }
}
