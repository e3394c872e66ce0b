/**
 * The durable whitelist repository, seen from the session model: a sequence
 * of whitelist entries with a lookup by domain, an insert and a delete. Its
 * storage engine is not part of this model; only the effect of each operation
 * on the stored entries is.
 */
module Repository {

  datatype Option<T> = None | Some(value: T)

  /** One durable entry. Despite its name, `url` holds a domain. */
  datatype WhitelistItem = WhitelistItem(url: string, time: int)

  type Store = seq<WhitelistItem>

  /** The domains the store holds at least one entry for. */
  function Domains(store: Store): set<string>
  {
    set i | i in store :: i.url
  }

  /** How many stored entries are for domain `d`. */
  function CountFor(store: Store, d: string): nat
  {
    if store == [] then 0
    else (if store[0].url == d then 1 else 0) + CountFor(store[1..], d)
  }

  /** No domain has more than one entry. */
  ghost predicate Unique(store: Store)
  {
    forall d :: CountFor(store, d) <= 1
  }

  lemma DomainsCons(store: Store)
    requires store != []
    ensures Domains(store) == {store[0].url} + Domains(store[1..])
  {
    assert store == [store[0]] + store[1..];
  }

  /** A domain is in the projection exactly when it has an entry. */
  lemma {:induction false} CountForPositive(store: Store, d: string)
    ensures CountFor(store, d) > 0 <==> d in Domains(store)
  {
    if store != [] {
      DomainsCons(store);
      CountForPositive(store[1..], d);
    }
  }

  lemma {:induction false} CountForAppend(a: Store, b: Store, d: string)
    ensures CountFor(a + b, d) == CountFor(a, d) + CountFor(b, d)
  {
    if a == [] {
      assert a + b == b;
    } else {
      assert (a + b)[0] == a[0];
      assert (a + b)[1..] == a[1..] + b;
      CountForAppend(a[1..], b, d);
    }
  }

  /**
   * whitelistItemForUrl: the first stored entry for domain `d`, or None when
   * the store has no entry for it.
   */
  function ItemForUrl(store: Store, d: string): (r: Option<WhitelistItem>)
    ensures r.Some? <==> d in Domains(store)
    ensures r.Some? ==> r.value in store && r.value.url == d
  {
    if store == [] then None
    else if store[0].url == d then Some(store[0])
    else
      DomainsCons(store);
      ItemForUrl(store[1..], d)
  }

  /** addWhitelistItem: the store gains `item` and nothing else. */
  function AddItem(store: Store, item: WhitelistItem): (r: Store)
    ensures multiset(r) == multiset(store) + multiset{item}
    ensures Domains(r) == Domains(store) + {item.url}
    ensures forall d :: CountFor(r, d) == CountFor(store, d) + (if d == item.url then 1 else 0)
  {
    CountForAddItem(store, item);
    store + [item]
  }

  lemma CountForAddItem(store: Store, item: WhitelistItem)
    ensures forall d :: CountFor(store + [item], d) == CountFor(store, d) + (if d == item.url then 1 else 0)
  {
    forall d ensures CountFor(store + [item], d) == CountFor(store, d) + (if d == item.url then 1 else 0) {
      CountForAppend(store, [item], d);
      assert [item][1..] == [];
    }
  }

  /**
   * removeWhitelistItem: one entry equal to `item` leaves the store; every
   * other entry stays. A store without `item` is unchanged.
   */
  function RemoveItem(store: Store, item: WhitelistItem): (r: Store)
    ensures item in store ==> multiset(r) == multiset(store) - multiset{item}
    ensures item !in store ==> r == store
  {
    if store == [] then []
    else
      assert store == [store[0]] + store[1..];
      if store[0] == item then store[1..]
      else [store[0]] + RemoveItem(store[1..], item)
  }

  /** Removing an entry lowers the count of its own domain by one and no other. */
  lemma {:induction false} CountForRemoveItem(store: Store, item: WhitelistItem, d: string)
    ensures CountFor(RemoveItem(store, item), d) == CountFor(store, d) - (if item in store && d == item.url then 1 else 0)
  {
    if store != [] && store[0] != item {
      var rest := RemoveItem(store[1..], item);
      assert ([store[0]] + rest)[1..] == rest;
      assert item in store <==> item in store[1..];
      CountForRemoveItem(store[1..], item, d);
    }
  }

  /** CountForRemoveItem for every domain at once. */
  lemma CountForRemoveAll(store: Store, item: WhitelistItem)
    ensures forall x :: CountFor(RemoveItem(store, item), x) == CountFor(store, x) - (if item in store && x == item.url then 1 else 0)
  {
    forall x ensures CountFor(RemoveItem(store, item), x) == CountFor(store, x) - (if item in store && x == item.url then 1 else 0) {
      CountForRemoveItem(store, item, x);
    }
  }
}
