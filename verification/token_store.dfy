/** The token registry: for every user, the collection `users/{userId}/fcmTokens`,
    one document per device token, keyed by the token and carrying `lastUsed`. */
module TokenStore {
  import opened Options
  import opened Sequences

  type UserId = string
  type Token = string
  /** Seconds since the epoch. */
  type Timestamp = int

  /** One user's token collection: token -> lastUsed. */
  type Tokens = map<Token, Timestamp>

  /** All users' token collections. */
  type Store = map<UserId, Tokens>

  /** The user's collection; a user without one reads as an empty collection. */
  function TokensOf(s: Store, u: UserId): Tokens
  {
    if u in s then s[u] else map[]
  }

  /** `listing` is an order in which the store returns the documents of `ts`:
      every token exactly once. */
  predicate IsListing(listing: seq<Token>, ts: Tokens)
  {
    Distinct(listing) && Elements(listing) == ts.Keys
  }

  /** A listing has one entry per document, so it is empty exactly when the collection is. */
  lemma ListingLength(listing: seq<Token>, ts: Tokens)
    requires IsListing(listing, ts)
    ensures |listing| == |ts|
    ensures |listing| == 0 <==> ts == map[]
  {
    DistinctCardinality(listing);
    assert |ts| == |ts.Keys|;
    if ts != map[] {
      var t :| t in ts;
      assert t in Elements(listing);
    }
  }

  /** Deletes the documents `dead` from user `u`'s collection in one batch.
      Keys that are not present are skipped; no other document changes. */
  function RemoveTokens(s: Store, u: UserId, dead: set<Token>): (r: Store)
    ensures r.Keys == s.Keys
    ensures forall v :: v in s && v != u ==> r[v] == s[v]
    ensures TokensOf(r, u).Keys == TokensOf(s, u).Keys - dead
    ensures forall t :: t in TokensOf(r, u) ==> TokensOf(r, u)[t] == TokensOf(s, u)[t]
  {
    if u in s then s[u := s[u] - dead] else s
  }

  /** Deleting keys that are all absent changes nothing. */
  lemma RemoveAbsentIsNoop(s: Store, u: UserId, dead: set<Token>)
    requires dead !! TokensOf(s, u).Keys
    ensures RemoveTokens(s, u, dead) == s
  {
    if u in s {
      assert s[u] - dead == s[u];
    }
  }

  /** Deleting the same batch twice is the same as deleting it once
      (a redelivered event does no further harm). */
  lemma RemoveIdempotent(s: Store, u: UserId, dead: set<Token>)
    ensures RemoveTokens(RemoveTokens(s, u, dead), u, dead) == RemoveTokens(s, u, dead)
  {
    RemoveAbsentIsNoop(RemoveTokens(s, u, dead), u, dead);
  }

  /** Deleting again any part of a batch already deleted changes nothing further. */
  lemma RemoveSubsetAgainIsNoop(s: Store, u: UserId, dead: set<Token>, again: set<Token>)
    requires again <= dead
    ensures RemoveTokens(RemoveTokens(s, u, dead), u, again) == RemoveTokens(s, u, dead)
  {
    RemoveAbsentIsNoop(RemoveTokens(s, u, dead), u, again);
  }

  /** Two deletion batches commute, for the same user or for different users. */
  lemma RemovalsCommute(s: Store, u: UserId, a: set<Token>, v: UserId, b: set<Token>)
    ensures RemoveTokens(RemoveTokens(s, u, a), v, b) == RemoveTokens(RemoveTokens(s, v, b), u, a)
  {
    if u == v && u in s {
      assert s[u] - a - b == s[u] - b - a;
    }
  }
}
