/** The `sendPushNotification` handler: one notification record fans out to all of
    its user's tokens in a single multicast, and permanently rejected tokens are
    deleted from that user's collection. */
module Dispatcher {
  import opened Options
  import opened Sequences
  import opened TokenStore
  import opened Payloads
  import opened Gateway

  /** Which store calls throw during this invocation. The gateway's own failure
      is its `Unreachable` reply. */
  datatype DispatchFaults = DispatchFaults(readFails: bool, commitFails: bool)

  /** How the invocation ends. `Sent` is the only case where the handler returns
      the batch response; `NoTokens` and `Errored` both return null. */
  datatype Completion = NoTokens | Sent(responses: seq<SendResponse>) | Errored

  /** The observable effect of one invocation: the send calls made, the store
      afterwards, how it completed, and the tokens whose deletion was committed. */
  datatype DispatchRun = DispatchRun(
    requests: seq<SendRequest>,
    store: Store,
    completion: Completion,
    removed: seq<Token>)

  /** The handler for record `rec` with document id `id` under user `user`.
      `listing` is the order in which the store returns the user's token documents. */
  function Dispatch(
    s: Store, user: UserId, id: string, rec: NotificationRecord,
    listing: seq<Token>, gateway: SendRequest -> GatewayReply, faults: DispatchFaults): (r: DispatchRun)
    requires IsListing(listing, TokensOf(s, user))
    requires PreservesLength(gateway)
    ensures |r.requests| <= 1
    ensures r.requests != [] <==> !faults.readFails && TokensOf(s, user) != map[]
    ensures forall req :: req in r.requests ==> req.tokens == listing && req.payload == BuildPayload(id, rec)
    ensures r.completion.NoTokens? <==> !faults.readFails && TokensOf(s, user) == map[]
    ensures var reply := gateway(SendRequest(listing, BuildPayload(id, rec)));
            r.completion.Sent? <==>
              && !faults.readFails && TokensOf(s, user) != map[]
              && reply.Replied?
              && (FailureCount(reply.responses) == 0 || !faults.commitFails)
    ensures r.completion.Sent? ==> r.requests != [] && gateway(r.requests[0]) == Replied(r.completion.responses)
    ensures r.completion.Sent? ==> |r.completion.responses| == |listing|
    ensures r.completion.Sent? ==> r.removed == InvalidTokens(listing, r.completion.responses)
    ensures !r.completion.Sent? ==> r.removed == []
    ensures r.store == RemoveTokens(s, user, Elements(r.removed))
  {
    ListingLength(listing, TokensOf(s, user));
    RemoveAbsentIsNoop(s, user, {});
    assert Elements<Token>([]) == {};
    if faults.readFails then DispatchRun([], s, Errored, [])
    else if |listing| == 0 then DispatchRun([], s, NoTokens, [])
    else
      var req := SendRequest(listing, BuildPayload(id, rec));
      match gateway(req)
      case Unreachable => DispatchRun([req], s, Errored, [])
      case Replied(rs) =>
        if FailureCount(rs) == 0 then
          NoFailuresNoInvalidTokens(listing, rs);
          DispatchRun([req], s, Sent(rs), [])
        else if faults.commitFails then
          DispatchRun([req], s, Errored, [])
        else
          var dead := InvalidTokens(listing, rs);
          DispatchRun([req], RemoveTokens(s, user, Elements(dead)), Sent(rs), dead)
  }

  /** A user with no tokens gets no send, no deletion, and the handler returns null. */
  lemma NoTokensIsNoop(
    s: Store, user: UserId, id: string, rec: NotificationRecord,
    gateway: SendRequest -> GatewayReply, faults: DispatchFaults)
    requires TokensOf(s, user) == map[]
    requires PreservesLength(gateway)
    ensures Dispatch(s, user, id, rec, [], gateway, faults).requests == []
    ensures Dispatch(s, user, id, rec, [], gateway, faults).store == s
    ensures !Dispatch(s, user, id, rec, [], gateway, faults).completion.Sent?
  {
    RemoveAbsentIsNoop(s, user, {});
  }

  /** The dispatcher deletes a listed token exactly when the invocation completes
      with the responses and the token's own response is a permanent failure; every
      other token is kept with its `lastUsed`. */
  lemma DeletesExactlyPermanentFailures(
    s: Store, user: UserId, id: string, rec: NotificationRecord,
    listing: seq<Token>, gateway: SendRequest -> GatewayReply, faults: DispatchFaults, i: nat)
    requires IsListing(listing, TokensOf(s, user))
    requires PreservesLength(gateway)
    requires i < |listing|
    ensures var reply := gateway(SendRequest(listing, BuildPayload(id, rec)));
            var r := Dispatch(s, user, id, rec, listing, gateway, faults);
            !faults.readFails && reply.Replied? && (FailureCount(reply.responses) == 0 || !faults.commitFails) ==>
              (listing[i] !in TokensOf(r.store, user) <==> IsPermanentFailure(reply.responses[i]))
    ensures var r := Dispatch(s, user, id, rec, listing, gateway, faults);
            r.completion.Sent? ==> (listing[i] !in TokensOf(r.store, user) <==> IsPermanentFailure(r.completion.responses[i]))
    ensures var r := Dispatch(s, user, id, rec, listing, gateway, faults);
            !r.completion.Sent? ==> listing[i] in TokensOf(r.store, user)
    ensures var r := Dispatch(s, user, id, rec, listing, gateway, faults);
            listing[i] in TokensOf(r.store, user) ==> TokensOf(r.store, user)[listing[i]] == TokensOf(s, user)[listing[i]]
  {
    var r := Dispatch(s, user, id, rec, listing, gateway, faults);
    assert listing[i] in Elements(listing);
    if r.completion.Sent? {
      SelectedIffPermanent(listing, r.completion.responses, i);
    }
  }

  /** When the gateway fails or the deletion batch does not commit, the store is
      untouched; a commit failure turns an already performed send into a null result. */
  lemma FailuresLeaveStoreUnchanged(
    s: Store, user: UserId, id: string, rec: NotificationRecord,
    listing: seq<Token>, gateway: SendRequest -> GatewayReply, faults: DispatchFaults)
    requires IsListing(listing, TokensOf(s, user))
    requires PreservesLength(gateway)
    requires TokensOf(s, user) != map[]
    requires !faults.readFails && faults.commitFails
    ensures var r := Dispatch(s, user, id, rec, listing, gateway, faults);
            r.store == s && |r.requests| == 1
    ensures var r := Dispatch(s, user, id, rec, listing, gateway, faults);
            r.completion.Errored? <==> gateway(r.requests[0]).Unreachable? || FailureCount(gateway(r.requests[0]).responses) > 0
  {
    RemoveAbsentIsNoop(s, user, {});
  }

  /** The two-device scenario: user `u1` has `t1` and `t2`; the gateway accepts `t1`
      and reports `t2` as not registered. */
  const ScenarioStore: Store := map["u1" := map["t1" := 10, "t2" := 20]]
  const ScenarioRecord: NotificationRecord := NotificationRecord(Some("Reminder"), Some("Pay rent"), None, None, None, map[])
  const ScenarioReplies: seq<SendResponse> := [SendResponse(true, None), SendResponse(false, Some(RegistrationTokenNotRegistered))]

  function ScenarioGateway(req: SendRequest): GatewayReply
  {
    if |req.tokens| == 2 then Replied(ScenarioReplies) else Unreachable
  }

  /** The scenario's responses: one success, one failure, and only `t2` selected. */
  lemma ScenarioResponses()
    ensures SuccessCount(ScenarioReplies) == 1 && FailureCount(ScenarioReplies) == 1
    ensures InvalidTokens(["t1", "t2"], ScenarioReplies) == ["t2"]
  {
    var tail := [ScenarioReplies[1]];
    assert ScenarioReplies[1..] == tail;
    assert tail[1..] == [];
    assert FailureCount(tail) == 1;
    assert SuccessCount(tail) == 0;
    var listing: seq<Token> := ["t1", "t2"];
    assert IsPermanentFailure(ScenarioReplies[1]) && !IsPermanentFailure(ScenarioReplies[0]);
    assert listing[..1] == ["t1"];
    assert ScenarioReplies[..1] == [ScenarioReplies[0]];
    assert InvalidTokens(["t1"], [ScenarioReplies[0]]) == [] by {
      assert ["t1"][..0] == [];
    }
  }

  /** In the scenario `t2` is deleted, `t1` stays, and one success and one failure are reported. */
  lemma TwoDeviceScenario()
    ensures PreservesLength(ScenarioGateway)
    ensures IsListing(["t1", "t2"], TokensOf(ScenarioStore, "u1"))
    ensures var r := Dispatch(ScenarioStore, "u1", "n1", ScenarioRecord, ["t1", "t2"], ScenarioGateway, DispatchFaults(false, false));
            && r.completion == Sent(ScenarioReplies)
            && SuccessCount(r.completion.responses) == 1 && FailureCount(r.completion.responses) == 1
            && r.removed == ["t2"]
            && r.store == map["u1" := map["t1" := 10]]
  {
    var listing: seq<Token> := ["t1", "t2"];
    assert Elements(listing) == ScenarioStore["u1"].Keys;
    ScenarioResponses();
    assert Elements(["t2"]) == {"t2"};
    assert map["t1" := 10, "t2" := 20] - {"t2"} == map["t1" := 10];
  }
}
