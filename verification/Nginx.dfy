/** NginxController: an oracle for NGINX, whose answers are arbitrary within what it can do. */
module Nginx {
  import opened Store
  import ReadBack

  datatype ProbeAnswer = Passed | Failed | ValueError(at: int)

  class NginxController {
    const store: CandidateStateStore
    const timeout: real

    constructor (store: CandidateStateStore, timeout: real)
      ensures this.store == store && this.timeout == timeout
    {
      this.store := store;
      this.timeout := timeout;
    }

    /** Swaps the bytes into the active file for `nginx -t` and swaps the old ones back. */
    method ValidateCandidate(content: string) returns (ok: bool)
      requires store.Durable()
      modifies store`selected, store`trace, store`validated, store`mishaps
      ensures store.Now() == old(store.Now()) && store.Durable()
      ensures store.trace == old(store.trace) + [store.Now().(selected := content), store.Now()]
      ensures Through(old(store.Now()), old(store.trace), store.trace,
                      {Point(content, store.running), Here(store.Now())})
      ensures store.validated == if ok then old(store.validated) + {content} else old(store.validated)
      ensures store.mishaps == old(store.mishaps) + if ok then 0 else 1
    {
      var original := store.selected;
      store.WriteSelected(content);
      ok := *;
      if ok {
        store.validated := store.validated + {content};
      } else {
        store.mishaps := store.mishaps + 1;
      }
      store.WriteSelected(original);
    }

    /** A confirmed reload serves the selected file; an unconfirmed one may or may not. */
    method ReloadAndConfirm() returns (ok: bool)
      requires store.Durable()
      modifies store`running, store`mishaps
      ensures store.Durable()
      ensures ok ==> store.running == store.selected
      ensures store.running == old(store.running) || store.running == store.selected
      ensures store.mishaps == old(store.mishaps) + if ok then 0 else 1
    {
      ok := *;
      var tookOver: bool := *;
      if ok || tookOver {
        store.running := store.selected;
      }
      if !ok {
        store.mishaps := store.mishaps + 1;
      }
    }

    /**
     * probe_candidate: only for bytes equal to the selected file; it raises when those bytes
     * hold no rule in force at the clock second it reads, which is not after `until`. Requests
     * are answered arbitrarily.
     */
    method ProbeCandidate(candidate: string, until: real) returns (p: ProbeAnswer)
      requires store.Durable()
      modifies store`confirmed, store`mishaps
      ensures store.Durable()
      ensures p.Passed? ==> candidate == store.selected
      ensures p.Passed? ==> exists at :: at <= until.Floor && ReadBack.ProbeRule(candidate, at).Some?
      ensures p.Passed? && store.running == store.selected ==> store.confirmed == old(store.confirmed) + {candidate}
      ensures !p.Passed? ==> store.confirmed == old(store.confirmed)
      ensures old(store.confirmed) <= store.confirmed <= old(store.confirmed) + {candidate}
      ensures p.ValueError? ==> candidate == store.selected && ReadBack.ProbeRule(candidate, p.at).None?
      ensures p.ValueError? ==> p.at <= until.Floor
      ensures store.mishaps == old(store.mishaps) + if p.Failed? && candidate == store.selected then 1 else 0
    {
      hide ReadBack.ProbeRule, Describes;
      if candidate != store.selected {
        return Failed;
      }
      var second: int := *;
      if second > until.Floor {
        second := until.Floor;
      }
      if ReadBack.ProbeRule(candidate, second).None? {
        return ValueError(second);
      }
      var answered: bool := *;
      if !answered {
        store.mishaps := store.mishaps + 1;
        return Failed;
      }
      if store.running == store.selected {
        store.confirmed := store.confirmed + {candidate};
      }
      return Passed;
    }

    /** probe_empty: the selected file lets an unmarked request through. */
    method ProbeEmpty() returns (ok: bool)
      requires store.Durable()
      modifies store`confirmed, store`mishaps
      ensures store.Durable()
      ensures ok && store.running == store.selected ==> store.confirmed == old(store.confirmed) + {store.selected}
      ensures !ok ==> store.confirmed == old(store.confirmed)
      ensures old(store.confirmed) <= store.confirmed <= old(store.confirmed) + {store.selected}
      ensures store.mishaps == old(store.mishaps) + if ok then 0 else 1
    {
      ok := *;
      if !ok {
        store.mishaps := store.mishaps + 1;
      }
      if ok && store.running == store.selected {
        store.confirmed := store.confirmed + {store.selected};
      }
    }
  }
}
