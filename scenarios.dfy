/**
 * Sessions driven through particular sequences of calls and scheduler steps,
 * each ending with what a caller then observes. They fix the public contract
 * of the session whitelist on concrete orderings of its deferred work.
 */
module Scenarios {
  import opened Repository
  import opened DurableSteps
  import opened SessionWhitelist

  /** A new session, before any add and before its load completes, whitelists no URL. */
  method ColdStart(domainForUrl: string -> Option<string>, repository: Store, url: string)
    returns (whitelisted: bool)
    ensures !whitelisted
  {
    var m := new SessionWhitelistModel(domainForUrl, repository);
    whitelisted := m.IsUrlWhitelisted(url);
  }

  /**
   * An add is visible at once to every URL with the same domain, while the
   * store is still as it was.
   */
  method AddIsVisibleBeforePersisting(domainForUrl: string -> Option<string>, repository: Store, url: string, other: string, now: int)
    returns (whitelisted: bool, stored: Store)
    requires domainForUrl(url).Some? && domainForUrl(other) == domainForUrl(url)
    ensures whitelisted && stored == repository
  {
    var m := new SessionWhitelistModel(domainForUrl, repository);
    m.CompleteLoad();
    m.AddUrlToWhitelist(url, now);
    whitelisted, stored := m.IsUrlWhitelisted(other), m.store;
  }

  /** An unparseable URL: adding it changes neither memory nor store, schedules nothing, and it is not whitelisted. */
  method UnparseableUrlIsIgnored(domainForUrl: string -> Option<string>, repository: Store, url: string, now: int)
    returns (whitelisted: bool, stored: Store, scheduled: nat)
    requires domainForUrl(url).None?
    ensures !whitelisted && stored == repository && scheduled == 0
  {
    var m := new SessionWhitelistModel(domainForUrl, repository);
    m.CompleteLoad();
    m.AddUrlToWhitelist(url, now);
    m.RemoveUrlFromWhitelist(url);
    whitelisted, stored, scheduled := m.IsUrlWhitelisted(url), m.store, |m.pending|;
  }

  /** add(u) then remove(u): u is not whitelisted, whatever the store holds. */
  method AddThenRemove(domainForUrl: string -> Option<string>, repository: Store, url: string, now: int)
    returns (whitelisted: bool)
    ensures !whitelisted
  {
    var m := new SessionWhitelistModel(domainForUrl, repository);
    m.CompleteLoad();
    m.AddUrlToWhitelist(url, now);
    m.RemoveUrlFromWhitelist(url);
    whitelisted := m.IsUrlWhitelisted(url);
  }

  /**
   * Two URLs with one domain added to an empty store: once both durable steps
   * run, the store holds exactly one entry, the one of the first add, and
   * the set holds the domain once.
   */
  method AddTwiceStoresOnce(domainForUrl: string -> Option<string>, first: string, second: string, t1: int, t2: int)
    returns (stored: Store, memory: set<string>)
    requires domainForUrl(first).Some? && domainForUrl(second) == domainForUrl(first)
    ensures stored == [WhitelistItem(domainForUrl(first).value, t1)]
    ensures memory == {domainForUrl(first).value}
  {
    var d := domainForUrl(first).value;
    var m := new SessionWhitelistModel(domainForUrl, []);
    m.CompleteLoad();
    m.AddUrlToWhitelist(first, t1);
    m.AddUrlToWhitelist(second, t2);
    m.RunPending(0);
    assert m.store == [WhitelistItem(d, t1)];
    assert CountFor(m.store, d) == 1;
    m.RunPending(0);
    stored, memory := m.store, m.whitelistSet;
  }

  /**
   * The load replaces rather than merges: a domain added in memory before the
   * load completes, and not yet stored, is lost when it completes.
   */
  method LoadDiscardsEarlyAdd(domainForUrl: string -> Option<string>, repository: Store, url: string, now: int)
    returns (before: bool, after: bool)
    requires domainForUrl(url).Some? && domainForUrl(url).value !in Domains(repository)
    ensures before && !after
  {
    var m := new SessionWhitelistModel(domainForUrl, repository);
    m.AddUrlToWhitelist(url, now);
    before := m.IsUrlWhitelisted(url);
    m.CompleteLoad();
    after := m.IsUrlWhitelisted(url);
  }

  /**
   * add(u) whose durable step runs, then a new session over the same store:
   * its load brings u back.
   */
  method AddSurvivesReload(domainForUrl: string -> Option<string>, repository: Store, url: string, now: int)
    returns (whitelisted: bool)
    requires domainForUrl(url).Some?
    ensures whitelisted
  {
    var m := new SessionWhitelistModel(domainForUrl, repository);
    m.CompleteLoad();
    m.AddUrlToWhitelist(url, now);
    m.RunPending(0);
    var next := new SessionWhitelistModel(domainForUrl, m.store);
    next.CompleteLoad();
    whitelisted := next.IsUrlWhitelisted(url);
  }

  /**
   * The add-then-remove race: with the domain not stored, the remove's
   * durable step runs before the add's, finds nothing and deletes nothing;
   * the add's step then stores the entry. The store now holds the domain the
   * session has removed, and the load puts it back into the set.
   */
  method AddThenRemoveRace(domainForUrl: string -> Option<string>, repository: Store, url: string, now: int)
    returns (stored: Store, beforeLoad: bool, afterLoad: bool)
    requires domainForUrl(url).Some? && domainForUrl(url).value !in Domains(repository)
    ensures multiset(stored) == multiset(repository) + multiset{WhitelistItem(domainForUrl(url).value, now)}
    ensures !beforeLoad && afterLoad
  {
    var d := domainForUrl(url).value;
    CountForPositive(repository, d);
    var m := new SessionWhitelistModel(domainForUrl, repository);
    m.AddUrlToWhitelist(url, now);
    m.RemoveUrlFromWhitelist(url);
    m.RunPending(1);
    assert m.store == repository;
    m.RunPending(0);
    stored, beforeLoad := m.store, m.IsUrlWhitelisted(url);
    m.CompleteLoad();
    afterLoad := m.IsUrlWhitelisted(url);
  }

  /**
   * The add-then-remove race in a session that has loaded: the remove's
   * durable step runs before the add's. The store then holds the domain while
   * the set lacks it, so memory and store no longer converge, and the next
   * session's load whitelists the removed URL again.
   */
  method AddThenRemoveRaceAfterLoad(domainForUrl: string -> Option<string>, repository: Store, url: string, now: int)
    returns (stored: Store, whitelisted: bool, storeMatchesMemory: bool, ghost converges: bool, whitelistedNextSession: bool)
    requires Unique(repository)
    requires domainForUrl(url).Some? && domainForUrl(url).value !in Domains(repository)
    ensures domainForUrl(url).value in Domains(stored)
    ensures !whitelisted && !storeMatchesMemory && !converges && whitelistedNextSession
  {
    var d := domainForUrl(url).value;
    CountForPositive(repository, d);
    var m := new SessionWhitelistModel(domainForUrl, repository);
    m.CompleteLoad();
    m.AddUrlToWhitelist(url, now);
    m.RemoveUrlFromWhitelist(url);
    m.RunPending(1);
    assert m.store == repository;
    m.RunPending(0);
    assert m.pending == [];
    stored, whitelisted := m.store, m.IsUrlWhitelisted(url);
    assert d in Domains(m.store) && d !in m.whitelistSet;
    storeMatchesMemory, converges := Domains(m.store) == m.whitelistSet, m.Converges();
    var next := new SessionWhitelistModel(domainForUrl, m.store);
    next.CompleteLoad();
    whitelistedNextSession := next.IsUrlWhitelisted(url);
  }

  /**
   * The same calls with the durable steps run in the order they were
   * scheduled: the store ends with the entries it began with and the load leaves the domain out.
   */
  method AddThenRemoveInOrder(domainForUrl: string -> Option<string>, repository: Store, url: string, now: int)
    returns (stored: Store, afterLoad: bool)
    requires domainForUrl(url).Some? && domainForUrl(url).value !in Domains(repository)
    ensures multiset(stored) == multiset(repository)
    ensures !afterLoad
  {
    var d := domainForUrl(url).value;
    CountForPositive(repository, d);
    var m := new SessionWhitelistModel(domainForUrl, repository);
    m.AddUrlToWhitelist(url, now);
    m.RemoveUrlFromWhitelist(url);
    m.RunPending(0);
    assert CountFor(m.store, d) == 1;
    m.RunPending(0);
    assert CountFor(m.store, d) == 0;
    stored := m.store;
    m.CompleteLoad();
    CountForPositive(m.store, d);
    afterLoad := m.IsUrlWhitelisted(url);
  }
}
