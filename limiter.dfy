/** The rate-decision engine: `Allow` reads an identity's counter record from
    the store (creating it on first contact), denies while the record is
    blocked, and otherwise either moves it to blocked (budget used up) or
    counts the request. One pass of the cleanup sweep deletes every listed key.

    The clock is the integer field `now` (nanoseconds since the Unix epoch),
    which a caller may set; `blockDuration` is in nanoseconds as well, and the
    block stamp written by `Allow` is `now` truncated to whole seconds. */
module Limiter {
  import opened RateLimitState
  import opened Tokens
  import opened Store

  /** The budget that applies: a positive token limit overrides the default. */
  function EffectiveLimit(defaultLimit: int, tokenLimit: int): int {
    if tokenLimit > 0 then tokenLimit else defaultLimit
  }

  /** Whole seconds since the epoch, rounding down as Go's `Time.Unix` does. */
  function UnixSeconds(now: int): int {
    now / NanosPerSecond
  }

  /** The record `Allow` decides on and the store contents after loading it. */
  datatype Loaded = Loaded(req: Result<State>, records: map<string, State>)

  /** The answer of `Allow` and the store contents it leaves behind. */
  datatype Decision = Decision(allowed: bool, records: map<string, State>)

  /** Loading: a stored record is used as it is; an absent one is created and
      saved first; a failed get or a failed initial save is an error. */
  function LoadSpec(records: map<string, State>, getFails: bool, saveFails: bool, ip: string): Loaded {
    if getFails then Loaded(Err(Unavailable), records)
    else if ip in records then Loaded(Ok(records[ip]), records)
    else if saveFails then Loaded(Err(Unavailable), records)
    else Loaded(Ok(NewState(ip)), records[ip := NewState(ip)])
  }

  /** What one `Allow(ip, ...)` call answers and leaves in the store, given the
      store's contents and failure modes, the effective limit and the clock. */
  function AllowSpec(records: map<string, State>, getFails: bool, saveFails: bool,
                     ip: string, limit: int, now: int, blockDuration: int): Decision
  {
    var loaded := LoadSpec(records, getFails, saveFails, ip);
    if loaded.req.Err? then Decision(false, loaded.records)
    else
      var req := loaded.req.value;
      if req.IsBlocked(now, blockDuration) then Decision(false, loaded.records)
      else if req.count >= limit then
        Decision(false, if saveFails then loaded.records
                        else loaded.records[ip := State(ip, 0, UnixSeconds(now))])
      else if saveFails then Decision(false, loaded.records)
      else Decision(true, loaded.records[ip := State(ip, req.count + 1, 0)])
  }

  /** The record an identity is judged by: the stored one, or a fresh one. */
  function Current(records: map<string, State>, ip: string): State {
    if ip in records then records[ip] else NewState(ip)
  }

  /** What one sweep pass leaves: only the keys whose delete failed. */
  function SweepSpec(records: map<string, State>, deleteFails: set<string>): map<string, State> {
    map k | k in records && k in deleteFails :: records[k]
  }

  class RateLimiter {
    const defaultLimit: int
    const cleanupInterval: int
    const blockDuration: int
    const tokenLimits: TokenLimitList
    const store: MapStore
    /** The clock, in nanoseconds since the Unix epoch. */
    var now: int

    /** Takes the configuration and the collaborators; `clock` is the initial
        reading of the clock. The background sweeper that a positive
        `interval` starts is not part of this model. */
    constructor (limit: int, interval: int, blockInterval: int, listTokens: TokenLimitList,
                 store: MapStore, clock: int)
      ensures defaultLimit == limit && cleanupInterval == interval && blockDuration == blockInterval
      ensures tokenLimits == listTokens && this.store == store && now == clock
    {
      defaultLimit := limit;
      cleanupInterval := interval;
      blockDuration := blockInterval;
      tokenLimits := listTokens;
      this.store := store;
      now := clock;
    }

    /** Whether a record is blocked by the current clock and the configured duration. */
    predicate Blocked(s: State)
      reads this
    {
      s.IsBlocked(now, blockDuration)
    }

    method SaveRequest(s: State) returns (status: Status)
      modifies store`data
      ensures status == (if store.saveFails then Failed(Unavailable) else Done)
      ensures store.data == if store.saveFails then old(store.data) else old(store.data)[s.key := s]
    {
      status := store.Save(s);
    }

    method LoadRequest(ip: string) returns (req: Result<State>)
      modifies store`data
      ensures Loaded(req, store.data) == LoadSpec(old(store.data), store.getFails, store.saveFails, ip)
    {
      var got := store.Get(ip);
      if got == Err(StateNotFound) {
        var initial := NewState(ip);
        var saved := SaveRequest(initial);
        if saved.Failed? {
          return Err(saved.error);
        }
        return Ok(initial);
      }
      if got.Err? {
        return Err(got.error);
      }
      return Ok(got.value);
    }

    method Allow(ip: string, token: string) returns (allowed: bool)
      modifies store`data
      ensures Decision(allowed, store.data) ==
        AllowSpec(old(store.data), store.getFails, store.saveFails, ip,
                  EffectiveLimit(defaultLimit, tokenLimits.LimitFor(token)), now, blockDuration)
    {
      var req := LoadRequest(ip);
      if req.Err? {
        return false;
      }
      if Blocked(req.value) {
        return false;
      }
      var limit := defaultLimit;
      var tokenLimit := tokenLimits.LimitFor(token);
      if tokenLimit > 0 {
        limit := tokenLimit;
      }
      if req.value.count >= limit {
        var saved := SaveRequest(State(ip, 0, UnixSeconds(now)));
        return false;
      }
      var saved := SaveRequest(State(ip, req.value.count + 1, 0));
      if saved.Failed? {
        return false;
      }
      return true;
    }

    /** One pass of the cleanup sweep: list the keys, then try to delete each
        one, going on past failed deletes; a failed listing ends the pass. */
    method Sweep()
      modifies store`data
      ensures store.listFails ==> store.data == old(store.data)
      ensures !store.listFails ==> store.data == SweepSpec(old(store.data), store.deleteFails)
    {
      var listed := store.ListKeys();
      if listed.Err? {
        return;
      }
      var keys := listed.value;
      ghost var before := store.data;
      for i := 0 to |keys|
        invariant forall k :: k in store.data <==> k in before && (k in store.deleteFails || k !in keys[..i])
        invariant forall k :: k in store.data ==> store.data[k] == before[k]
      {
        assert keys[..i + 1] == keys[..i] + [keys[i]];
        var _ := store.Delete(keys[i]);
      }
      assert keys[..|keys|] == keys;
    }
  }

  // ---------------------------------------------------------------- properties of Allow

  /** A failed read of the record denies and writes nothing. */
  lemma GetFailureDenies(records: map<string, State>, saveFails: bool, ip: string,
                         limit: int, now: int, blockDuration: int)
    ensures AllowSpec(records, true, saveFails, ip, limit, now, blockDuration) == Decision(false, records)
  {
  }

  /** An unseen identity whose initial record cannot be saved is denied, and
      nothing is written. */
  lemma CreateFailureDenies(records: map<string, State>, ip: string, limit: int, now: int, blockDuration: int)
    requires ip !in records
    ensures AllowSpec(records, false, true, ip, limit, now, blockDuration) == Decision(false, records)
  {
  }

  /** First contact with a working store: a positive budget admits the request
      and leaves count 1; a budget of zero or less blocks at once. */
  lemma FirstContact(records: map<string, State>, ip: string, limit: int, now: int, blockDuration: int)
    requires ip !in records
    ensures limit >= 1 ==>
      AllowSpec(records, false, false, ip, limit, now, blockDuration) == Decision(true, records[ip := State(ip, 1, 0)])
    ensures limit <= 0 ==>
      AllowSpec(records, false, false, ip, limit, now, blockDuration) ==
      Decision(false, records[ip := State(ip, 0, UnixSeconds(now))])
  {
  }

  /** While the stored record is blocked every request is denied, whatever the
      count, the limit or the store's save behaviour, and the store is untouched. */
  lemma BlockedDeniesUnchanged(records: map<string, State>, getFails: bool, saveFails: bool, ip: string,
                               limit: int, now: int, blockDuration: int)
    requires ip in records && records[ip].IsBlocked(now, blockDuration)
    ensures AllowSpec(records, getFails, saveFails, ip, limit, now, blockDuration) == Decision(false, records)
  {
  }

  /** With the budget used up the request is denied and the only write is the
      block record (count reset, stamp = now in whole seconds); the answer is
      "deny" even when that write fails. */
  lemma OverBudgetBlocks(records: map<string, State>, saveFails: bool, ip: string,
                         limit: int, now: int, blockDuration: int)
    requires ip in records || !saveFails
    requires !Current(records, ip).IsBlocked(now, blockDuration)
    requires Current(records, ip).count >= limit
    ensures AllowSpec(records, false, saveFails, ip, limit, now, blockDuration) ==
      Decision(false, if saveFails then records else records[ip := State(ip, 0, UnixSeconds(now))])
  {
  }

  /** Under budget the only write is the incremented count with no block stamp,
      and the request is admitted exactly when that write succeeds. */
  lemma UnderBudgetCounts(records: map<string, State>, saveFails: bool, ip: string,
                          limit: int, now: int, blockDuration: int)
    requires ip in records || !saveFails
    requires !Current(records, ip).IsBlocked(now, blockDuration)
    requires Current(records, ip).count < limit
    ensures AllowSpec(records, false, saveFails, ip, limit, now, blockDuration) ==
      Decision(!saveFails, if saveFails then records
                           else records[ip := State(ip, Current(records, ip).count + 1, 0)])
  {
  }

  /** A request is admitted exactly when the store works, the identity's record
      is not blocked and its count is below the limit. */
  lemma AllowedIff(records: map<string, State>, getFails: bool, saveFails: bool, ip: string,
                   limit: int, now: int, blockDuration: int)
    ensures AllowSpec(records, getFails, saveFails, ip, limit, now, blockDuration).allowed <==>
      !getFails && !saveFails &&
      !Current(records, ip).IsBlocked(now, blockDuration) && Current(records, ip).count < limit
  {
  }

  /** An admitted request is counted: the identity's record afterwards holds
      one more than it did before, no block stamp, and at most the limit. */
  lemma AllowedIsCounted(records: map<string, State>, getFails: bool, saveFails: bool, ip: string,
                         limit: int, now: int, blockDuration: int)
    requires AllowSpec(records, getFails, saveFails, ip, limit, now, blockDuration).allowed
    ensures ip in AllowSpec(records, getFails, saveFails, ip, limit, now, blockDuration).records
    ensures AllowSpec(records, getFails, saveFails, ip, limit, now, blockDuration).records[ip] ==
      State(ip, Current(records, ip).count + 1, 0)
    ensures Current(records, ip).count + 1 <= limit
  {
  }

  /** Allow touches no other identity's record. */
  lemma OnlyIdentityWritten(records: map<string, State>, getFails: bool, saveFails: bool, ip: string,
                            limit: int, now: int, blockDuration: int, other: string)
    requires other != ip
    ensures var after := AllowSpec(records, getFails, saveFails, ip, limit, now, blockDuration).records;
      (other in after <==> other in records) && (other in records ==> after[other] == records[other])
  {
  }

  /** Every record is stored under its own key. */
  predicate Keyed(records: map<string, State>) {
    forall k :: k in records ==> records[k].key == k
  }

  /** Allow keeps every record stored under its own key. */
  lemma AllowKeepsKeyed(records: map<string, State>, getFails: bool, saveFails: bool, ip: string,
                        limit: int, now: int, blockDuration: int)
    requires Keyed(records)
    ensures Keyed(AllowSpec(records, getFails, saveFails, ip, limit, now, blockDuration).records)
  {
  }

  /** The identity's count stays between 0 and the budget (0 when the budget is
      not positive): a count within bounds before a call is within them after. */
  lemma BudgetKept(records: map<string, State>, getFails: bool, saveFails: bool, ip: string,
                   limit: int, now: int, blockDuration: int)
    requires ip in records ==> 0 <= records[ip].count <= (if limit > 0 then limit else 0)
    ensures var after := AllowSpec(records, getFails, saveFails, ip, limit, now, blockDuration).records;
      ip in after ==> 0 <= after[ip].count <= (if limit > 0 then limit else 0)
  {
  }

  /** A block written at `now` (at least one second after the epoch) lasts
      until the block duration has passed since the start of `now`'s second:
      the sub-second part of `now` is dropped, so the block is released up to
      one second before `now + blockDuration`, and never later. */
  lemma BlockWindow(ip: string, now: int, blockDuration: int, t: int)
    requires now >= NanosPerSecond
    ensures State(ip, 0, UnixSeconds(now)).IsBlocked(t, blockDuration) <==>
      t < now - now % NanosPerSecond + blockDuration
    ensures t >= now + blockDuration ==> !State(ip, 0, UnixSeconds(now)).IsBlocked(t, blockDuration)
    ensures t < now + blockDuration - (NanosPerSecond - 1) ==> State(ip, 0, UnixSeconds(now)).IsBlocked(t, blockDuration)
  {
    var sec := UnixSeconds(now);
    assert sec * NanosPerSecond == now - now % NanosPerSecond;
    assert sec >= 1;
  }

  /** A block written while the clock is within the epoch's first second (or
      before it) carries a stamp of zero or less and therefore never blocks. */
  lemma EarlyBlockNeverHolds(ip: string, now: int, blockDuration: int, t: int)
    requires now < NanosPerSecond
    ensures !State(ip, 0, UnixSeconds(now)).IsBlocked(t, blockDuration)
  {
    assert UnixSeconds(now) <= 0;
  }

  // ---------------------------------------------------------------- token budgets

  /** A positive token limit replaces the default; a token that is absent or
      listed with zero or a negative value leaves the default in force. */
  lemma TokenOverridesDefault(defaultLimit: int, tokens: TokenLimitList, token: string)
    ensures token in tokens.list && tokens.list[token].limit > 0 ==>
      EffectiveLimit(defaultLimit, tokens.LimitFor(token)) == tokens.list[token].limit
    ensures token !in tokens.list || tokens.list[token].limit <= 0 ==>
      EffectiveLimit(defaultLimit, tokens.LimitFor(token)) == defaultLimit
  {
  }

  /** "-5" is stored as Token-5 with limit -5, but a request carrying Token-5
      still gets the default budget. */
  lemma NegativeTokenIgnored(defaultLimit: int)
    ensures ParseTokenLimits("-5").LimitFor("Token-5") == -5
    ensures EffectiveLimit(defaultLimit, ParseTokenLimits("-5").LimitFor("Token-5")) == defaultLimit
  {
    NegativeLimitIsListed();
  }

  // ---------------------------------------------------------------- cleanup sweep

  /** A sweep keeps exactly the records whose delete failed; with no failing
      delete it empties the store. */
  lemma SweepLeavesFailedDeletes(records: map<string, State>, deleteFails: set<string>)
    ensures SweepSpec(records, deleteFails).Keys == records.Keys * deleteFails
    ensures forall k :: k in SweepSpec(records, deleteFails) ==> SweepSpec(records, deleteFails)[k] == records[k]
    ensures records.Keys !! deleteFails ==> SweepSpec(records, deleteFails) == map[]
  {
    if records.Keys !! deleteFails {
      assert SweepSpec(records, deleteFails).Keys == {};
    }
  }

  // ---------------------------------------------------------------- a full budget cycle

  /** Drives a fresh limiter over an empty working store for one identity with
      budget n >= 1: the first n requests are admitted (the first leaving count
      1), request n + 1 is denied and leaves a block stamped with the current
      second, and a request once the block duration has passed is admitted again. */
  method BudgetScenario(defaultLimit: int, tokens: TokenLimitList, token: string, ip: string,
                        blockDuration: int, start: int, later: int)
    returns (results: seq<bool>, firstCount: int, blockStamp: int)
    requires EffectiveLimit(defaultLimit, tokens.LimitFor(token)) >= 1
    requires start >= NanosPerSecond
    requires later >= start + blockDuration
    ensures var n := EffectiveLimit(defaultLimit, tokens.LimitFor(token));
      |results| == n + 2 && (forall i :: 0 <= i < n ==> results[i]) && !results[n] && results[n + 1]
    ensures firstCount == 1
    ensures blockStamp == start / NanosPerSecond && blockStamp != 0
  {
    var store := new MapStore(map[], false, false, false, {});
    var limiter := new RateLimiter(defaultLimit, 0, blockDuration, tokens, store, start);
    var n := EffectiveLimit(defaultLimit, tokens.LimitFor(token));
    results := [];
    firstCount := 0;
    var i := 0;
    while i < n
      invariant 0 <= i <= n
      invariant limiter.store == store && limiter.now == start
      invariant !store.getFails && !store.saveFails
      invariant store.data == if i == 0 then map[] else map[ip := State(ip, i, 0)]
      invariant |results| == i && forall j :: 0 <= j < i ==> results[j]
      invariant i >= 1 ==> firstCount == 1
    {
      var ok := limiter.Allow(ip, token);
      results := results + [ok];
      if i == 0 {
        firstCount := store.data[ip].count;
      }
      i := i + 1;
    }
    var denied := limiter.Allow(ip, token);
    results := results + [denied];
    blockStamp := store.data[ip].blockedAt;
    limiter.now := later;
    var again := limiter.Allow(ip, token);
    results := results + [again];
  }
}
