/** Memory of used registration nonces. */
module RegisterGuard {

  const NONCE_TTL_MS: int := 600_000

  type Key = (nat, seq<char>)   // device and nonce

  /** Used nonces and when they are forgotten. */
  type Memory = map<Key, int>

  /** A nonce is refused while it is remembered. */
  predicate Fresh(seen: Memory, key: Key, now: int) { key !in seen || seen[key] <= now }

  function Admit(seen: Memory, key: Key, now: int): Memory {
    if Fresh(seen, key, now) then seen[key := now + NONCE_TTL_MS] else seen
  }

  function Sweep(seen: Memory, now: int): Memory {
    map key | key in seen && seen[key] > now :: seen[key]
  }

  class RegisterGuard {
    var seen: Memory

    constructor ()
      ensures seen == map[]
    {
      seen := map[];
    }

    method AdmitNonce(device: nat, nonce: seq<char>, now: int) returns (ok: bool)
      modifies this
      ensures ok == Fresh(old(seen), (device, nonce), now) && seen == Admit(old(seen), (device, nonce), now)
    {
      var key := (device, nonce);
      if key in seen {
        if seen[key] > now { return false; }
        seen := seen[key := now + NONCE_TTL_MS];
        return true;
      }
      seen := seen[key := now + NONCE_TTL_MS];
      return true;
    }

    method SweepExpired(now: int)
      modifies this
      ensures seen == Sweep(old(seen), now)
    {
      seen := map key | key in seen && seen[key] > now :: seen[key];
    }
  }

  // ---------- laws ----------

  datatype Event = Use(key: Key, now: int) | Clean(now: int)

  function Do(seen: Memory, e: Event): Memory {
    match e
    case Use(key, now) => Admit(seen, key, now)
    case Clean(now) => Sweep(seen, now)
  }

  function Run(events: seq<Event>): Memory {
    if events == [] then map[] else Do(Run(events[..|events| - 1]), events[|events| - 1])
  }

  predicate Admitted(events: seq<Event>, i: nat)
    requires i < |events|
  {
    events[i].Use? && Fresh(Run(events[..i]), events[i].key, events[i].now)
  }

  ghost predicate Monotone(events: seq<Event>) {
    forall i, j :: 0 <= i <= j < |events| ==> events[i].now <= events[j].now
  }

  /** Uses of `key` admitted after `limit`. */
  ghost predicate AdmittedSince(events: seq<Event>, key: Key, limit: int) {
    exists i :: 0 <= i < |events| && Admitted(events, i) && events[i].key == key && events[i].now > limit
  }

  lemma AdmittedPrefix(events: seq<Event>, n: nat, i: nat)
    requires i < n <= |events|
    ensures Admitted(events[..n], i) == Admitted(events, i)
  {
    assert events[..n][..i] == events[..i];
  }

  lemma SinceNext(events: seq<Event>, key: Key, limit: int)
    requires events != []
    ensures var n := |events| - 1;
            AdmittedSince(events, key, limit) <==>
            AdmittedSince(events[..n], key, limit) ||
               (Admitted(events, n) && events[n].key == key && events[n].now > limit)
  {
    var n := |events| - 1;
    forall i | 0 <= i < n ensures Admitted(events[..n], i) == Admitted(events, i) {
      AdmittedPrefix(events, n, i);
    }
  }

  /** What the memory knows at time `t`: the nonces admitted within the last ten minutes. */
  lemma {:induction false} MemoryIsRecentUses(events: seq<Event>, key: Key, t: int)
    requires Monotone(events) && forall i :: 0 <= i < |events| ==> events[i].now <= t
    ensures !Fresh(Run(events), key, t) <==> AdmittedSince(events, key, t - 600_000)
  {
    if events != [] {
      var n := |events| - 1;
      var earlier, last := events[..n], events[n];
      MemoryIsRecentUses(earlier, key, t);
      SinceNext(events, key, t - 600_000);
    }
  }

  /** A nonce is admitted iff it was not admitted within the last ten minutes, whenever the memory was swept. */
  lemma AdmittedIffNotRecent(events: seq<Event>, i: nat)
    requires Monotone(events) && i < |events| && events[i].Use?
    ensures Admitted(events, i) <==> !AdmittedSince(events[..i], events[i].key, events[i].now - 600_000)
  {
    MemoryIsRecentUses(events[..i], events[i].key, events[i].now);
  }
}
