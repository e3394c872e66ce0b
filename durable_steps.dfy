/**
 * The deferred durable work that addUrlToWhitelist and removeUrlFromWhitelist
 * schedule on the database scheduler. Each step is one lookup followed by the
 * write that depends on it, applied to the stored entries as one step.
 */
module DurableSteps {
  import opened Repository

  datatype PendingStep =
    | LookupThenInsert(item: WhitelistItem)
    | LookupThenDelete(domain: string)
  {
    /** The domain a step looks up. */
    function Domain(): string
    {
      match this
      case LookupThenInsert(item) => item.url
      case LookupThenDelete(d) => d
    }
  }

  /**
   * The durable half of addUrlToWhitelist: look up the domain of `item` and
   * insert `item` only when the lookup comes back empty.
   */
  function InsertIfAbsent(store: Store, item: WhitelistItem): (r: Store)
    ensures CountFor(store, item.url) == 0 ==> multiset(r) == multiset(store) + multiset{item}
    ensures CountFor(store, item.url) > 0 ==> r == store
    ensures CountFor(r, item.url) == if CountFor(store, item.url) == 0 then 1 else CountFor(store, item.url)
    ensures forall d :: d != item.url ==> CountFor(r, d) == CountFor(store, d)
    ensures Domains(r) == Domains(store) + {item.url}
  {
    CountForPositive(store, item.url);
    match ItemForUrl(store, item.url)
    case None => AddItem(store, item)
    case Some(_) => store
  }

  /**
   * The durable half of removeUrlFromWhitelist: look up the entry for `d` and
   * delete the entry found; with no entry found nothing happens.
   */
  function DeleteFound(store: Store, d: string): (r: Store)
    ensures CountFor(store, d) == 0 ==> r == store
    ensures CountFor(store, d) > 0 ==>
      exists e :: e in store && e.url == d && multiset(r) == multiset(store) - multiset{e}
    ensures CountFor(r, d) == if CountFor(store, d) == 0 then 0 else CountFor(store, d) - 1
    ensures forall x :: x != d ==> CountFor(r, x) == CountFor(store, x)
    ensures CountFor(store, d) <= 1 ==> Domains(r) == Domains(store) - {d}
  {
    CountForPositive(store, d);
    match ItemForUrl(store, d)
    case None => store
    case Some(e) =>
      var r := RemoveItem(store, e);
      CountForRemoveAll(store, e);
      if CountFor(store, d) == 1 then
        DomainsAfterCounts(store, r, d);
        r
      else r
  }

  /** When only `d` may lose entries and `d` has none left, the projection loses exactly `d`. */
  lemma DomainsAfterCounts(store: Store, r: Store, d: string)
    requires CountFor(store, d) > 0 && CountFor(r, d) == 0
    requires forall x :: x != d ==> CountFor(r, x) == CountFor(store, x)
    ensures Domains(r) == Domains(store) - {d}
  {
    forall x ensures x in Domains(r) <==> x in Domains(store) - {d} {
      CountForPositive(store, x);
      CountForPositive(r, x);
    }
  }

  /**
   * One durable step. It changes only the entries of the domain it looks up
   * and never gives a domain a second entry.
   */
  function Step(store: Store, p: PendingStep): (r: Store)
    ensures forall e: WhitelistItem :: e.url != p.Domain() ==> multiset(r)[e] == multiset(store)[e]
    ensures forall x :: x != p.Domain() ==> CountFor(r, x) == CountFor(store, x)
    ensures CountFor(r, p.Domain()) <= if CountFor(store, p.Domain()) == 0 then 1 else CountFor(store, p.Domain())
    ensures Unique(store) ==> Unique(r)
  {
    match p
    case LookupThenInsert(item) => InsertIfAbsent(store, item)
    case LookupThenDelete(d) => DeleteFound(store, d)
  }

  /** The store after running the steps of `ps` one after another, first to last. */
  function RunAll(store: Store, ps: seq<PendingStep>): (r: Store)
    ensures Unique(store) ==> Unique(r)
    decreases |ps|
  {
    if ps == [] then store
    else Step(RunAll(store, ps[..|ps| - 1]), ps[|ps| - 1])
  }

  /** Running the first step on its own and then the rest is running them all. */
  lemma {:induction false} RunAllFirst(store: Store, ps: seq<PendingStep>)
    requires ps != []
    ensures RunAll(Step(store, ps[0]), ps[1..]) == RunAll(store, ps)
    decreases |ps|
  {
    if |ps| > 1 {
      var front := ps[..|ps| - 1];
      assert front[0] == ps[0];
      assert ps[1..][..|ps[1..]| - 1] == front[1..];
      RunAllFirst(store, front);
    }
  }

  /**
   * Duplicate suppression: when add steps for one domain run one after
   * another on a store with at most one entry for it, the store ends with
   * exactly one entry for it (or as many as before, if no step ran).
   */
  lemma {:induction false} RepeatedAddsLeaveOneEntry(store: Store, d: string, ps: seq<PendingStep>)
    requires CountFor(store, d) <= 1
    requires forall k :: 0 <= k < |ps| ==> ps[k].LookupThenInsert? && ps[k].item.url == d
    ensures CountFor(RunAll(store, ps), d) == if ps == [] then CountFor(store, d) else 1
    decreases |ps|
  {
    if ps != [] {
      var front := ps[..|ps| - 1];
      RepeatedAddsLeaveOneEntry(store, d, front);
    }
  }

  /**
   * The store, once every pending step has run in the order scheduled, has
   * at most one entry per domain and its domains are exactly `w`.
   */
  ghost predicate Settled(store: Store, ps: seq<PendingStep>, w: set<string>)
  {
    Unique(RunAll(store, ps)) && Domains(RunAll(store, ps)) == w
  }

  /** An add in memory and its durable step scheduled last keep store and memory in step. */
  lemma AddKeepsSettled(store: Store, ps: seq<PendingStep>, w: set<string>, item: WhitelistItem)
    requires Settled(store, ps, w)
    ensures Settled(store, ps + [LookupThenInsert(item)], w + {item.url})
  {
    assert (ps + [LookupThenInsert(item)])[..|ps|] == ps;
  }

  /** A remove in memory and its durable step scheduled last keep store and memory in step. */
  lemma RemoveKeepsSettled(store: Store, ps: seq<PendingStep>, w: set<string>, d: string)
    requires Settled(store, ps, w)
    ensures Settled(store, ps + [LookupThenDelete(d)], w - {d})
  {
    assert (ps + [LookupThenDelete(d)])[..|ps|] == ps;
  }

  /** Running the oldest pending step keeps store and memory in step. */
  lemma RunFirstKeepsSettled(store: Store, ps: seq<PendingStep>, w: set<string>)
    requires ps != [] && Settled(store, ps, w)
    ensures Settled(Step(store, ps[0]), ps[1..], w)
  {
    RunAllFirst(store, ps);
  }
}
