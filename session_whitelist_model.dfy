/**
 * The in-memory ad-block whitelist of one browser session. Queries read only
 * the in-memory set; adds and removes change it at once and schedule one
 * durable step each; the initial load replaces the whole set with the domains
 * of the stored entries. Deferred work is kept in explicit queues that a
 * caller drains step by step, in whatever order it chooses.
 */
module SessionWhitelist {
  import opened Repository
  import opened DurableSteps

  class SessionWhitelistModel {
    /** Extracts the domain of a URL, or None when the URL cannot be parsed. */
    const domainForUrl: string -> Option<string>

    /** The in-memory set that every query consults. */
    var whitelistSet: set<string>
    /** The entries of the durable repository. */
    var store: Store
    /** Durable steps scheduled and not yet run, oldest first. */
    var pending: seq<PendingStep>
    /** The initial load has been scheduled and has not completed. */
    var loadPending: bool

    /**
     * Memory and store agree once the pending steps run oldest first: the
     * load is done and the store, after the queue drains, holds one entry for
     * each domain of the in-memory set and no other.
     */
    ghost predicate Converges()
      reads this
    {
      !loadPending && Settled(store, pending, whitelistSet)
    }

    /** Construction schedules the one-shot load; until it completes the set is empty. */
    constructor (domainForUrl: string -> Option<string>, repository: Store)
      ensures this.domainForUrl == domainForUrl && store == repository
      ensures whitelistSet == {} && pending == [] && loadPending
    {
      this.domainForUrl := domainForUrl;
      whitelistSet := {};
      store := repository;
      pending := [];
      loadPending := true;
    }

    /** The completion of the initial load: the set becomes the stored domains, whatever it held. */
    method CompleteLoad()
      requires loadPending
      modifies this
      ensures whitelistSet == Domains(store) && !loadPending
      ensures store == old(store) && pending == old(pending)
      ensures pending == [] && Unique(store) ==> Converges()
    {
      whitelistSet := set i | i in store :: i.url;
      loadPending := false;
    }

    /** A URL is whitelisted when it has a domain and that domain is in the in-memory set. */
    function IsUrlWhitelisted(url: string): (r: bool)
      reads this
      ensures domainForUrl(url).None? ==> !r
      ensures domainForUrl(url).Some? ==> (r <==> domainForUrl(url).value in whitelistSet)
    {
      match domainForUrl(url)
      case None => false
      case Some(d) => d in whitelistSet
    }

    /**
     * The set gains the URL's domain at once, so every URL with that domain
     * is whitelisted from now on; the durable insert is only scheduled.
     * A URL without a domain changes nothing.
     */
    method AddUrlToWhitelist(url: string, now: int)
      modifies this
      ensures store == old(store) && loadPending == old(loadPending)
      ensures domainForUrl(url).None? ==> whitelistSet == old(whitelistSet) && pending == old(pending)
      ensures domainForUrl(url).Some? ==>
        whitelistSet == old(whitelistSet) + {domainForUrl(url).value} &&
        pending == old(pending) + [LookupThenInsert(WhitelistItem(domainForUrl(url).value, now))]
      ensures forall v :: domainForUrl(v).Some? && domainForUrl(v) == domainForUrl(url) ==> IsUrlWhitelisted(v)
      ensures old(Converges()) ==> Converges()
    {
      match domainForUrl(url)
      case None =>
      case Some(domain) =>
        var whitelistItem := WhitelistItem(domain, now);
        if Converges() {
          AddKeepsSettled(store, pending, whitelistSet, whitelistItem);
        }
        pending := pending + [LookupThenInsert(whitelistItem)];
        whitelistSet := whitelistSet + {domain};
    }

    /**
     * The set loses the URL's domain at once, so no URL with that domain is
     * whitelisted any more; the durable delete is only scheduled.
     * A URL without a domain changes nothing.
     */
    method RemoveUrlFromWhitelist(url: string)
      modifies this
      ensures store == old(store) && loadPending == old(loadPending)
      ensures domainForUrl(url).None? ==> whitelistSet == old(whitelistSet) && pending == old(pending)
      ensures domainForUrl(url).Some? ==>
        whitelistSet == old(whitelistSet) - {domainForUrl(url).value} &&
        pending == old(pending) + [LookupThenDelete(domainForUrl(url).value)]
      ensures forall v :: domainForUrl(v) == domainForUrl(url) ==> !IsUrlWhitelisted(v)
      ensures old(Converges()) ==> Converges()
    {
      match domainForUrl(url)
      case None =>
      case Some(domain) =>
        if Converges() {
          RemoveKeepsSettled(store, pending, whitelistSet, domain);
        }
        pending := pending + [LookupThenDelete(domain)];
        whitelistSet := whitelistSet - {domain};
    }

    /**
     * The database scheduler runs the pending step at position `i`. The
     * in-memory set is not touched; running the oldest step keeps Converges.
     */
    method RunPending(i: nat)
      requires i < |pending|
      modifies this
      ensures store == Step(old(store), old(pending)[i])
      ensures pending == old(pending)[..i] + old(pending)[i + 1..]
      ensures whitelistSet == old(whitelistSet) && loadPending == old(loadPending)
      ensures i == 0 && old(Converges()) ==> Converges()
    {
      var step, rest := pending[i], pending[..i] + pending[i + 1..];
      if i == 0 && Converges() {
        assert rest == pending[1..];
        RunFirstKeepsSettled(store, pending, whitelistSet);
      }
      store := Step(store, step);
      pending := rest;
    }
  }
}
