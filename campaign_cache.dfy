/** The campaign cache and its refresh, `loadCampaigns`: a re-entrancy guard,
    a sequential read of every campaign by index, an abort that keeps the old
    cache on any failed read, and a replace-and-render step taken only when
    forced or when the fetched list differs from the cache.

    The awaited contract reads are an input (`ChainReads`); one call is
    treated as atomic, so only the guard flag of overlapping calls shows. */
module CampaignCache {
  import opened Wrappers
  import opened Campaigns
  import opened CardPlan

  /** What the contract answers during one refresh: `campaignCount()` (None
      when the call fails) and, per index, `campaigns(i)` (None when that call
      fails, and any index past the end fails too). */
  datatype ChainReads = ChainReads(count: Option<nat>, records: seq<Option<Record>>)

  /** The read of index `i` succeeds. */
  predicate ReadOk(chain: ChainReads, i: nat) {
    i < |chain.records| && chain.records[i].Some?
  }

  /** The list the loop has built after reading indices `0..n-1`, or None
      if one of those reads failed. */
  function FetchPrefix(chain: ChainReads, n: nat): (r: Option<seq<Campaign>>)
    ensures r.Some? ==> |r.value| == n && forall i :: 0 <= i < n ==> r.value[i].id == i
  {
    if n == 0 then Some([])
    else
      match FetchPrefix(chain, n - 1)
      case None => None
      case Some(prefix) =>
        if ReadOk(chain, n - 1) then Some(prefix + [FromRecord(n - 1, chain.records[n - 1].value)])
        else None
  }

  /** The full fetch: the count, then every index below it. A fetched list
      has one entry per counted index, entry `i` with id `i`. */
  function FetchAll(chain: ChainReads): (r: Option<seq<Campaign>>)
    ensures r.Some? ==> chain.count.Some? && |r.value| == chain.count.value
    ensures r.Some? ==> forall i :: 0 <= i < |r.value| ==> r.value[i].id == i
  {
    match chain.count
    case None => None
    case Some(n) => FetchPrefix(chain, n)
  }

  /** A prefix fetch fails exactly when some read below `n` fails, and when it
      succeeds entry `i` is the record of index `i`, with id `i`. */
  lemma {:induction false} FetchPrefixContents(chain: ChainReads, n: nat)
    ensures FetchPrefix(chain, n).None? <==> exists i :: 0 <= i < n && !ReadOk(chain, i)
    ensures FetchPrefix(chain, n).Some? ==>
      var l := FetchPrefix(chain, n).value;
      |l| == n && forall i :: 0 <= i < n ==> ReadOk(chain, i) && l[i] == FromRecord(i, chain.records[i].value)
  {
    if n > 0 {
      FetchPrefixContents(chain, n - 1);
    }
  }

  /** A successful fetch lists the campaigns with ids `0..count-1` in order,
      each built from the record read at its index. */
  lemma FetchAllContents(chain: ChainReads)
    ensures FetchAll(chain).Some? <==>
      chain.count.Some? && forall i :: 0 <= i < chain.count.value ==> ReadOk(chain, i)
    ensures FetchAll(chain).Some? ==>
      var l := FetchAll(chain).value;
      |l| == chain.count.value && UniqueIds(l)
      && forall i :: 0 <= i < |l| ==> ReadOk(chain, i) && l[i].id == i && l[i] == FromRecord(i, chain.records[i].value)
  {
    if chain.count.Some? {
      FetchPrefixContents(chain, chain.count.value);
    }
  }

  /** Who is logged in: the role picked at login, the wallet address, and
      whether a contract handle exists. */
  datatype Session = Session(role: string, userAddress: string, connected: bool)

  /** The module state `loadCampaigns` touches: the loading flag, the cache,
      how many renders happened, and what the last render drew. */
  datatype CacheState = CacheState(loading: bool, cache: seq<Campaign>, renders: nat, view: Option<View>)

  /** The test that decides whether the fetched list is drawn:
      `forceRender || lengths differ || JSON texts differ`. */
  predicate ShouldRender(force: bool, old_cache: seq<Campaign>, fresh_list: seq<Campaign>)
    ensures ShouldRender(force, old_cache, fresh_list) <==> force || fresh_list != old_cache
  {
    force || |old_cache| != |fresh_list| || fresh_list != old_cache
  }

  /** One call of `loadCampaigns(force)` at clock `now`, as a step on the
      state. A call that starts leaves the flag cleared; it draws at most once;
      the cache and the view change only together with a render, and a render
      draws the new cache. */
  function LoadStep(s: CacheState, session: Session, force: bool, chain: ChainReads, now: nat): (r: CacheState)
    ensures !s.loading ==> !r.loading
    ensures r.renders == s.renders || r.renders == s.renders + 1
    ensures r.renders == s.renders ==> r.cache == s.cache && r.view == s.view
    ensures r.renders != s.renders ==> r.view == Some(Render(r.cache, session.role, session.userAddress, now))
  {
    if s.loading || !session.connected then s
    else
      match FetchAll(chain)
      case None => s.(loading := false)
      case Some(l) =>
        if ShouldRender(force, s.cache, l) then
          CacheState(false, l, s.renders + 1, Some(Render(l, session.role, session.userAddress, now)))
        else s.(loading := false)
  }

  /** A call made while another is in flight, or before a contract exists,
      changes nothing at all. */
  lemma LoadGuarded(s: CacheState, session: Session, force: bool, chain: ChainReads, now: nat)
    requires s.loading || !session.connected
    ensures LoadStep(s, session, force, chain, now) == s
  {
  }

  /** A failed count read or record read keeps the cache, draws nothing, and
      clears the loading flag. */
  lemma LoadFailureKeepsCache(s: CacheState, session: Session, force: bool, chain: ChainReads, now: nat)
    requires !s.loading && session.connected
    requires chain.count.None? || exists i :: 0 <= i < chain.count.value && !ReadOk(chain, i)
    ensures var t := LoadStep(s, session, force, chain, now);
      t == s.(loading := false) && t.cache == s.cache && t.renders == s.renders && !t.loading
  {
    FetchAllContents(chain);
  }

  /** A successful refresh leaves the cache equal to the fetched list (ids
      `0..count-1` in order), draws exactly once when forced or when that list
      differs from the old cache and not at all otherwise, and clears the flag. */
  lemma LoadSuccess(s: CacheState, session: Session, force: bool, chain: ChainReads, now: nat)
    requires !s.loading && session.connected
    requires chain.count.Some? && forall i :: 0 <= i < chain.count.value ==> ReadOk(chain, i)
    ensures var t := LoadStep(s, session, force, chain, now);
      && !t.loading
      && |t.cache| == chain.count.value
      && (forall i :: 0 <= i < |t.cache| ==> ReadOk(chain, i) && t.cache[i] == FromRecord(i, chain.records[i].value))
      && (t.renders == s.renders + 1 <==> force || t.cache != s.cache)
      && (t.renders == s.renders <==> !force && t.cache == s.cache)
      && (t.renders != s.renders ==> t.view == Some(Render(t.cache, session.role, session.userAddress, now)))
      && (t.renders == s.renders ==> t.view == s.view)
  {
    FetchAllContents(chain);
  }

  /** Two unforced refreshes over the same contract data: the second draws
      nothing and changes nothing but the flag it clears. */
  lemma SecondUnforcedLoadIsQuiet(s: CacheState, session: Session, force: bool, chain: ChainReads, now1: nat, now2: nat)
    requires !s.loading
    ensures var t := LoadStep(s, session, force, chain, now1);
      LoadStep(t, session, false, chain, now2) == t
  {
  }

  /** After an unforced refresh that read changed data, exactly one render
      has happened. */
  lemma ChangedDataRendersOnce(s: CacheState, session: Session, chain: ChainReads, now: nat)
    requires !s.loading && session.connected
    requires FetchAll(chain).Some? && FetchAll(chain).value != s.cache
    ensures LoadStep(s, session, false, chain, now).renders == s.renders + 1
  {
  }

  /** The client's module state around one login session. */
  class CampaignClient {
    const session: Session
    var campaignsLoading: bool
    var campaignsCache: seq<Campaign>
    var renders: nat
    var view: Option<View>

    function State(): CacheState
      reads this
    {
      CacheState(campaignsLoading, campaignsCache, renders, view)
    }

    /** A fresh session: nothing loading, an empty cache, nothing drawn. */
    constructor (session: Session)
      ensures this.session == session
      ensures State() == CacheState(false, [], 0, None)
    {
      this.session := session;
      campaignsLoading := false;
      campaignsCache := [];
      renders := 0;
      view := None;
    }

    /** `renderCampaigns`, recording what it draws. */
    method RenderCampaigns(now: nat)
      modifies this
      ensures campaignsLoading == old(campaignsLoading) && campaignsCache == old(campaignsCache)
      ensures renders == old(renders) + 1
      ensures view == Some(Render(campaignsCache, session.role, session.userAddress, now))
    {
      renders := renders + 1;
      view := Some(Render(campaignsCache, session.role, session.userAddress, now));
    }

    /** `loadCampaigns(forceRender)`. */
    method LoadCampaigns(forceRender: bool, chain: ChainReads, now: nat)
      modifies this
      ensures State() == LoadStep(old(State()), session, forceRender, chain, now)
    {
      if campaignsLoading || !session.connected {
        return;
      }
      ghost var before := State();
      campaignsLoading := true;
      var newCampaigns: seq<Campaign> := [];
      var count := 0;
      if chain.count.None? {
        campaignsLoading := false;
        assert State() == before.(loading := false);
        return;
      }
      count := chain.count.value;
      var i := 0;
      while i < count
        invariant 0 <= i <= count
        invariant FetchPrefix(chain, i) == Some(newCampaigns)
        invariant campaignsLoading && campaignsCache == before.cache
        invariant renders == before.renders && view == before.view
      {
        if i >= |chain.records| || chain.records[i].None? {
          FailedPrefixStaysFailed(chain, i + 1, count);
          assert FetchAll(chain).None?;
          campaignsLoading := false;
          assert State() == before.(loading := false);
          return;
        }
        newCampaigns := newCampaigns + [FromRecord(i, chain.records[i].value)];
        i := i + 1;
      }
      assert FetchAll(chain) == Some(newCampaigns);
      if forceRender || |campaignsCache| != |newCampaigns| || newCampaigns != campaignsCache {
        campaignsCache := newCampaigns;
        RenderCampaigns(now);
      }
      campaignsLoading := false;
    }
  }

  /** Once a prefix fetch fails, every longer one fails. */
  lemma {:induction false} FailedPrefixStaysFailed(chain: ChainReads, n: nat, m: nat)
    requires n <= m && FetchPrefix(chain, n).None?
    ensures FetchPrefix(chain, m).None?
    decreases m - n
  {
    if n < m {
      FailedPrefixStaysFailed(chain, n + 1, m);
    }
  }
}
