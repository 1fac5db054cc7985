/** The replay guard of the ERC-8128 request-signature middleware: a map from nonce key
    to the instant (in milliseconds) until which that key counts as used. */
module Nonces {

  /** The map after `consume(key, ttlSeconds)` at `now`, and whether the key was fresh:
      a key whose recorded expiry is still in the future is refused and nothing
      changes; otherwise the key is recorded until `now + ttlSeconds * 1000`. */
  function ConsumeStep(used: map<string, int>, key: string, ttlSeconds: int, now: int): (r: (map<string, int>, bool))
    ensures !r.1 <==> key in used && used[key] > now
    ensures !r.1 ==> r.0 == used
    ensures r.1 ==> r.0 == used[key := now + ttlSeconds * 1000]
  {
    if key in used && used[key] > now then (used, false)
    else (used[key := now + ttlSeconds * 1000], true)
  }

  /** Consuming touches at most the entry for its key, and never removes one. */
  lemma ConsumeIsolated(used: map<string, int>, key: string, ttlSeconds: int, now: int)
    ensures var (after, _) := ConsumeStep(used, key, ttlSeconds, now);
      && used.Keys <= after.Keys
      && after.Keys <= used.Keys + {key}
      && forall k :: k in used && k != key ==> after[k] == used[k]
  {
  }

  /** A key accepted at `now` with a positive ttl is refused at every instant before
      its expiry, and accepted again from its expiry on. */
  lemma ConsumeWindow(used: map<string, int>, key: string, ttlSeconds: int, now: int, later: int)
    requires ttlSeconds > 0 && !(key in used && used[key] > now)
    ensures var (after, accepted) := ConsumeStep(used, key, ttlSeconds, now);
      && accepted
      && (later < now + ttlSeconds * 1000 ==> ConsumeStep(after, key, ttlSeconds, later) == (after, false))
      && (later >= now + ttlSeconds * 1000 ==> ConsumeStep(after, key, ttlSeconds, later).1)
  {
  }

  /** Consuming the same key twice at one instant with a positive ttl accepts the first
      and refuses the second. */
  lemma ConsumeTwice(used: map<string, int>, key: string, ttlSeconds: int, now: int)
    requires ttlSeconds > 0 && key !in used
    ensures ConsumeStep(used, key, ttlSeconds, now).1
    ensures !ConsumeStep(ConsumeStep(used, key, ttlSeconds, now).0, key, ttlSeconds, now).1
  {
  }

  /** The nonce store object with its mutable map. */
  class NonceStore {
    var usedNonces: map<string, int>

    constructor ()
      ensures usedNonces == map[]
    {
      usedNonces := map[];
    }

    method Consume(key: string, ttlSeconds: int, now: int) returns (accepted: bool)
      modifies this
      ensures (usedNonces, accepted) == ConsumeStep(old(usedNonces), key, ttlSeconds, now)
      ensures old(usedNonces).Keys <= usedNonces.Keys
    {
      if key in usedNonces && usedNonces[key] > now {
        return false;
      }
      usedNonces := usedNonces[key := now + ttlSeconds * 1000];
      accepted := true;
    }
  }
}
