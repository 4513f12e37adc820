/**
 The account index as a value: a map from id to account, the three operations
 the store performs on it, and what they guarantee
 (stores/account-list-store.ts). The class in AccountListStore is proved
 against these functions.
 */
module AccountIndex {
  import opened Wrappers
  import opened AccountTypes

  type Index = map<string, Account>

  /** The store's invariant: every account sits under its own id. */
  ghost predicate KeyedById(index: Index)
  {
    forall k :: k in index ==> index[k].id == k
  }

  /** Keyed lookup; an unknown id yields the absent-value marker, not an error. */
  function Lookup(index: Index, id: string): (r: Option<Account>)
    ensures r.Some? <==> id in index
    ensures r.Some? ==> r.value == index[id]
  {
    if id in index then Some(index[id]) else None
  }

  /** Insert-or-replace under the account's own id. */
  function Upsert(index: Index, account: Account): (r: Index)
    ensures Lookup(r, account.id) == Some(account)
    ensures forall k :: k != account.id ==> Lookup(r, k) == Lookup(index, k)
  {
    index[account.id := account]
  }

  /** Removal by id; a missing id leaves the index as it was. */
  function Remove(index: Index, id: string): (r: Index)
    ensures Lookup(r, id) == None
    ensures forall k :: k != id ==> Lookup(r, k) == Lookup(index, k)
  {
    index - {id}
  }

  /** Updating twice with the same account is the same as updating once. */
  lemma UpsertIdempotent(index: Index, account: Account)
    ensures Upsert(Upsert(index, account), account) == Upsert(index, account)
  {
  }

  /**
   Replacement is wholesale: the second of two updates under one id leaves no
   trace of the first, so nothing of `x` is merged into `y`.
   */
  lemma UpsertReplaces(index: Index, x: Account, y: Account)
    requires x.id == y.id
    ensures Upsert(Upsert(index, x), y) == Upsert(index, y)
    ensures Lookup(Upsert(Upsert(index, x), y), x.id) == Some(y)
  {
  }

  /** Deleting an id that is not there changes nothing. */
  lemma RemoveMissing(index: Index, id: string)
    requires Lookup(index, id) == None
    ensures Remove(index, id) == index
  {
  }

  /** Deleting twice is the same as deleting once. */
  lemma RemoveIdempotent(index: Index, id: string)
    ensures Remove(Remove(index, id), id) == Remove(index, id)
  {
  }

  /** Deleting right after an update undoes the update's key entirely. */
  lemma RemoveAfterUpsert(index: Index, account: Account)
    ensures Remove(Upsert(index, account), account.id) == Remove(index, account.id)
  {
  }

  /** An update adds a key exactly when its id was not yet present. */
  lemma UpsertSize(index: Index, account: Account)
    ensures |Upsert(index, account)| == if account.id in index then |index| else |index| + 1
  {
  }

  /** A delete removes a key exactly when the id was present. */
  lemma RemoveSize(index: Index, id: string)
    ensures |Remove(index, id)| == if id in index then |index| - 1 else |index|
  {
  }

  /** The empty index the store starts with satisfies the invariant. */
  lemma EmptyKeyed()
    ensures KeyedById(map[])
  {
  }

  /** Updating keeps every account under its own id. */
  lemma UpsertKeyed(index: Index, account: Account)
    requires KeyedById(index)
    ensures KeyedById(Upsert(index, account))
  {
  }

  /** Deleting keeps every account under its own id. */
  lemma RemoveKeyed(index: Index, id: string)
    requires KeyedById(index)
    ensures KeyedById(Remove(index, id))
  {
  }

  /** A write to the index, as the store's two mutating operations perform it. */
  datatype Op = Update(account: Account) | Delete(id: string)

  /** The index after applying the writes in order. */
  function Run(index: Index, ops: seq<Op>): (r: Index)
    decreases |ops|
  {
    if ops == [] then index
    else
      var next := match ops[0]
        case Update(a) => Upsert(index, a)
        case Delete(id) => Remove(index, id);
      Run(next, ops[1..])
  }

  /** Any sequence of updates and deletes keeps the invariant. */
  lemma {:induction false} RunKeyed(index: Index, ops: seq<Op>)
    requires KeyedById(index)
    ensures KeyedById(Run(index, ops))
    decreases |ops|
  {
    if ops != [] {
      match ops[0]
      case Update(a) => UpsertKeyed(index, a); RunKeyed(Upsert(index, a), ops[1..]);
      case Delete(id) => RemoveKeyed(index, id); RunKeyed(Remove(index, id), ops[1..]);
    }
  }

  /** Every index the store can reach from its empty start satisfies the invariant. */
  lemma {:induction false} ReachableKeyed(ops: seq<Op>)
    ensures KeyedById(Run(map[], ops))
  {
    EmptyKeyed();
    RunKeyed(map[], ops);
  }

  /** `keys` lists each key of `index` exactly once, in some order. */
  ghost predicate IsKeyOrder(index: Index, keys: seq<string>)
  {
    && |keys| == |index|
    && (forall i :: 0 <= i < |keys| ==> keys[i] in index)
    && (forall k :: k in index ==> k in keys)
    && (forall i, j :: 0 <= i < j < |keys| ==> keys[i] != keys[j])
  }

  /**
   `list` is the index's values read off in some key order: what
   `Object.values` yields, with the order left open.
   */
  ghost predicate EnumeratesValues(index: Index, list: seq<Account>)
  {
    exists keys :: IsKeyOrder(index, keys) && ValuesAt(index, keys, list)
  }

  /** `list[i]` is the value under `keys[i]`. */
  ghost predicate ValuesAt(index: Index, keys: seq<string>, list: seq<Account>)
  {
    && |list| == |keys|
    && forall i :: 0 <= i < |list| ==> keys[i] in index && list[i] == index[keys[i]]
  }

  /** The listing has one entry per key and holds exactly the stored accounts. */
  lemma EnumerationContents(index: Index, list: seq<Account>)
    requires EnumeratesValues(index, list)
    ensures |list| == |index|
    ensures forall a :: a in list <==> a in index.Values
  {
  }

  /** Under the invariant no account is listed twice. */
  lemma EnumerationDistinct(index: Index, list: seq<Account>)
    requires KeyedById(index)
    requires EnumeratesValues(index, list)
    ensures forall i, j :: 0 <= i < j < |list| ==> list[i] != list[j]
  {
  }

  /** In a duplicate-free sequence every element occurs exactly once. */
  lemma {:induction false} DistinctOccursOnce<T>(s: seq<T>, x: T)
    requires forall i, j :: 0 <= i < j < |s| ==> s[i] != s[j]
    ensures multiset(s)[x] == if x in s then 1 else 0
  {
    if s != [] {
      var rest := s[1..];
      DistinctOccursOnce(rest, x);
      assert s == [s[0]] + rest;
      assert multiset(s)[x] == (if x == s[0] then 1 else 0) + multiset(rest)[x];
      assert s[0] !in rest;
    }
  }

  /**
   Under the invariant the listing, taken as a multiset, is exactly the
   stored accounts: nothing extra, nothing missing, nothing twice.
   */
  lemma EnumerationMultiset(index: Index, list: seq<Account>)
    requires KeyedById(index)
    requires EnumeratesValues(index, list)
    ensures multiset(list) == multiset(index.Values)
  {
    EnumerationContents(index, list);
    EnumerationDistinct(index, list);
    forall a ensures multiset(list)[a] == multiset(index.Values)[a] {
      DistinctOccursOnce(list, a);
    }
  }
}
