/**
 The account store (stores/account-list-store.ts): one piece of state, the
 index from id to account, changed in place by update and delete and read by
 a keyed lookup and the derived account list.
 */
module AccountListStore {
  import opened Wrappers
  import opened AccountTypes
  import opened AccountIndex

  class AccountStore {
    /** The store's whole state. */
    var accountsIndex: Index

    /** Every stored account sits under its own id. */
    ghost predicate Valid()
      reads this
    {
      KeyedById(accountsIndex)
    }

    /** A fresh store starts with an empty index, which satisfies the invariant. */
    constructor ()
      ensures accountsIndex == map[]
      ensures Valid()
    {
      accountsIndex := map[];
    }

    /** Insert-or-replace under `account.id`; no check on the id, the empty string included. */
    method UpdateAccount(account: Account)
      modifies this
      ensures accountsIndex == Upsert(old(accountsIndex), account)
      ensures old(Valid()) ==> Valid()
    {
      accountsIndex := accountsIndex[account.id := account];
      if old(Valid()) {
        UpsertKeyed(old(accountsIndex), account);
      }
    }

    /** Remove the entry under `id`, if there is one; a missing id is not an error. */
    method DeleteAccount(id: string)
      modifies this
      ensures accountsIndex == Remove(old(accountsIndex), id)
      ensures old(Valid()) ==> Valid()
    {
      accountsIndex := accountsIndex - {id};
      if old(Valid()) {
        RemoveKeyed(old(accountsIndex), id);
      }
    }

    /**
     The account stored under `id`, or the absent-value marker. It only reads
     the index; under the invariant the account found carries the id asked for.
     */
    function GetAccountById(id: string): (r: Option<Account>)
      reads this
      ensures r == Lookup(accountsIndex, id)
      ensures Valid() && r.Some? ==> r.value.id == id
    {
      Lookup(accountsIndex, id)
    }

    /**
     The derived list of all stored accounts, one per key, in an order the
     model leaves open (the choice of the next key stands for the engine's
     enumeration order). It does not change the index.
     */
    method Accounts() returns (list: seq<Account>)
      ensures EnumeratesValues(accountsIndex, list)
    {
      var rest := accountsIndex.Keys;
      list := [];
      ghost var keys: seq<string> := [];
      while rest != {}
        invariant rest <= accountsIndex.Keys
        invariant |keys| + |rest| == |accountsIndex|
        invariant forall i :: 0 <= i < |keys| ==> keys[i] in accountsIndex && keys[i] !in rest
        invariant forall k :: k in accountsIndex ==> k in rest || k in keys
        invariant forall i, j :: 0 <= i < j < |keys| ==> keys[i] != keys[j]
        invariant ValuesAt(accountsIndex, keys, list)
        decreases |rest|
      {
        var k :| k in rest;
        list := list + [accountsIndex[k]];
        keys := keys + [k];
        rest := rest - {k};
      }
      assert IsKeyOrder(accountsIndex, keys);
    }
  }

  /**
   Two accounts, then a delete, driven through the store as a caller would:
   the lookups and the listing give what the contracts promise.
   */
  method StoreScenario()
  {
    var bob := Account("1", [], LOCAL, Some("bob"), Some("pw"));
    var prod := Account("2", [Tag("prod"), Tag("prod")], LDAP, None, None);
    assert "1" != "2" by { assert "1"[0] != "2"[0]; }
    assert "3" != "1" && "3" != "2" by { assert "3"[0] != "1"[0] && "3"[0] != "2"[0]; }
    var store := new AccountStore();
    store.UpdateAccount(bob);
    store.UpdateAccount(prod);
    assert store.accountsIndex == map["1" := bob, "2" := prod];
    var found := store.GetAccountById("1");
    assert found.value.login == Some("bob");
    assert store.GetAccountById("2").value.tags == [Tag("prod"), Tag("prod")];
    assert store.GetAccountById("3") == None;
    var list := store.Accounts();
    EnumerationContents(store.accountsIndex, list);
    assert |list| == 2 && bob in list && prod in list;
    store.DeleteAccount("2");
    assert store.accountsIndex == map["1" := bob];
    list := store.Accounts();
    EnumerationContents(store.accountsIndex, list);
    assert list == [bob];
  }
}
