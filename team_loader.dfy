/**
 * The memoised loader of the team file, reduced to its cache and its in-flight flag.
 * The asynchronous fetch is split at its await: `Load` is everything up to the request
 * and `FetchSettled` is the request finishing, with the parsed roster or with a failure.
 * A caller that finds a load already in flight polls every 100 ms until the cache is set.
 */
module TeamLoader {
  import opened Wrappers
  import opened Members

  /** The parsed team file: department key to its members, in file order. */
  type Roster = map<string, seq<Member>>

  /** What a call to `loadTeamData` does: return the cache, wait on the in-flight load,
      or issue the one network request. */
  datatype LoadStep = Cached(roster: Roster) | AwaitInFlight | Fetch

  class Loader {
    var cache: Option<Roster>
    var isLoading: bool
    /** The number of network requests issued so far. */
    ghost var fetches: nat

    /** A filled cache means no load is in flight. */
    ghost predicate Valid()
      reads this
    {
      cache.Some? ==> !isLoading
    }

    constructor ()
      ensures Valid() && cache == None && !isLoading && fetches == 0
    {
      cache := None;
      isLoading := false;
      fetches := 0;
    }

    /** `loadTeamData` up to its first await. Only a call that finds neither a cache nor a
        load in flight issues a request, so at most one is ever in flight. */
    method Load() returns (step: LoadStep)
      requires Valid()
      modifies this
      ensures Valid()
      ensures old(cache).Some? ==> step == Cached(old(cache).value) && unchanged(this)
      ensures old(cache).None? && old(isLoading) ==> step == AwaitInFlight && unchanged(this)
      ensures old(cache).None? && !old(isLoading) ==>
        step == Fetch && isLoading && cache == None && fetches == old(fetches) + 1
    {
      if cache.Some? {
        step := Cached(cache.value);
      } else if isLoading {
        step := AwaitInFlight;
      } else {
        isLoading := true;
        fetches := fetches + 1;
        step := Fetch;
      }
    }

    /** The in-flight request settling: `Some(roster)` on success, `None` when the fetch or
        the JSON parse fails. Both paths clear the flag; only success fills the cache, and
        a failure is passed on to the caller (returned as `None`). */
    method FetchSettled(result: Option<Roster>) returns (outcome: Option<Roster>)
      requires Valid() && isLoading
      modifies this
      ensures Valid() && !isLoading && fetches == old(fetches)
      ensures outcome == result
      ensures cache == (if result.Some? then result else old(cache))
    {
      if result.Some? {
        cache := result;
      }
      isLoading := false;
      outcome := result;
    }

    /** One tick of the waiting caller's poller: it resolves with the cache once the cache is
        set and otherwise keeps waiting. After a failed fetch it keeps waiting until some
        later call's fetch succeeds. */
    method Poll() returns (resolved: Option<Roster>)
      ensures resolved == cache
    {
      resolved := cache;
    }
  }

  /** Two calls before the first request settles: the first issues the request, the second
      waits; one request is issued and, once it succeeds, both callers get the same roster. */
  method ConcurrentLoads(roster: Roster) returns (first: LoadStep, second: LoadStep,
                                                  firstResult: Option<Roster>, secondResult: Option<Roster>,
                                                  ghost requests: nat)
    ensures first == Fetch && second == AwaitInFlight
    ensures requests == 1
    ensures firstResult == Some(roster) && secondResult == Some(roster)
  {
    var loader := new Loader();
    first := loader.Load();
    second := loader.Load();
    firstResult := loader.FetchSettled(Some(roster));
    secondResult := loader.Poll();
    requests := loader.fetches;
  }

  /** A failed request leaves the cache empty, so a waiting caller does not resolve, and the
      next call issues a fresh request. */
  method FailedLoadRetried() returns (waiting: Option<Roster>, retry: LoadStep, ghost requests: nat)
    ensures waiting == None && retry == Fetch && requests == 2
  {
    var loader := new Loader();
    var first := loader.Load();
    var second := loader.Load();
    var failed := loader.FetchSettled(None);
    waiting := loader.Poll();
    retry := loader.Load();
    requests := loader.fetches;
  }
}
