# Account index store, modelled in Dafny

This project models the account store of a small front-end application. The store holds one
piece of state, `accountsIndex`: a dictionary from account id to account record. Callers change
it in place with `updateAccount` (insert or replace under the record's own `id`) and
`deleteAccount` (remove a key; a missing key is not an error). They read it with
`getAccountById` (a keyed lookup that may find nothing) and `accounts` (the dictionary's values
as a list). It also models the account record itself. That record has `tags`, an ordered list
of `Tag` labels that may repeat. It also has an `AccountTypeEnum` with exactly two variants, and
nullable `login`/`password` fields. The enum's wire values keep their deliberately mixed casing:
`LDAP` is `"LDAP"` and `LOCAL` is `"local"`.

Files:

- `wrappers.dfy`: `Option`, the absent-value marker. It stands for JavaScript's
  `null`/`undefined`.
- `account_types.dfy` (module `AccountTypes`): `AccountType`, `Tag` and `Account` as datatypes,
  plus the enum's `Serialize`/`Parse` pair and its round-trip lemmas.
- `account_index.dfy` (module `AccountIndex`): the index as a value. It defines `Lookup`,
  `Upsert` and `Remove` on `map<string, Account>` and the invariant `KeyedById`. It holds the
  lemmas about these: lookup after write, wholesale replacement, idempotence, frame, key count
  and invariant preservation over any sequence of writes. It also defines `EnumeratesValues`,
  the specification of the derived list, with its length, membership and multiset lemmas.
- `account_list_store.dfy` (module `AccountListStore`): the class `AccountStore`. Its field is
  `accountsIndex`. Two methods change it in place, and they are proved against `Upsert` and
  `Remove`. `GetAccountById` is a reading function. `Accounts` is a reading method that builds
  the list. A client method, `StoreScenario`, drives two inserts, lookups, a listing and a
  delete through the class.

## Model

| member | source | states |
|---|---|---|
| `AccountTypes.Serialize` | types/account.ts:1-4 | `LDAP` serialises to `"LDAP"` and `LOCAL` to `"local"`, and each of these two strings is the wire value of exactly one variant |
| `AccountTypes.Parse` | types/account.ts:1-4 | a string is a valid account type iff it is exactly `"LDAP"` or `"local"`, and a parsed variant serialises back to the same string |
| `AccountTypes.ParseSerialize` | types/account.ts:1-4 | parsing the serialisation of any variant returns that variant |
| `AccountTypes.SerializeParse` | types/account.ts:1-4 | whatever parses to a variant is that variant's serialisation |
| `AccountTypes.SerializeInjective` | types/account.ts:1-4 | two variants have the same wire value iff they are the same variant |
| `AccountTypes.CaseSensitive` | types/account.ts:2-3 | `LDAP` serialises to `"LDAP"` and `LOCAL` to the lower-case `"local"`; `"LOCAL"` and `"ldap"` are not variants |
| `AccountIndex.Lookup` | stores/account-list-store.ts:21-23 | a lookup finds something iff the id is a key, and then it returns the stored record |
| `AccountIndex.Upsert` | stores/account-list-store.ts:13-15 | after an update the lookup of `account.id` returns exactly `account`, and every other id looks up as before |
| `AccountIndex.Remove` | stores/account-list-store.ts:17-19 | after a delete the id looks up as absent, and every other id looks up as before |
| `AccountIndex.UpsertIdempotent` | stores/account-list-store.ts:14 | updating twice with one account gives the same index as updating once |
| `AccountIndex.UpsertReplaces` | stores/account-list-store.ts:14 | of two updates under one id the second wins wholesale: the result equals updating with the second alone, with no field of the first merged in |
| `AccountIndex.RemoveMissing` | stores/account-list-store.ts:18 | deleting an id that is absent leaves the index unchanged and is not an error |
| `AccountIndex.RemoveIdempotent` | stores/account-list-store.ts:18 | deleting twice gives the same index as deleting once |
| `AccountIndex.RemoveAfterUpsert` | stores/account-list-store.ts:14-18 | deleting an id straight after updating it gives the same index as deleting it without the update |
| `AccountIndex.UpsertSize` | stores/account-list-store.ts:14 | an update adds one key when the id is new and none when it replaces |
| `AccountIndex.RemoveSize` | stores/account-list-store.ts:18 | a delete removes one key when the id is present and none otherwise |
| `AccountIndex.EmptyKeyed` | stores/account-list-store.ts:8 | the initial empty index keeps every account under its own id |
| `AccountIndex.UpsertKeyed` | stores/account-list-store.ts:14 | an update preserves "every account is stored under its own id" |
| `AccountIndex.RemoveKeyed` | stores/account-list-store.ts:18 | a delete preserves "every account is stored under its own id" |
| `AccountIndex.RunKeyed` | stores/account-list-store.ts:13-19 | any sequence of updates and deletes applied to an index that keeps the invariant yields one that keeps it |
| `AccountIndex.ReachableKeyed` | stores/account-list-store.ts:8-19 | every index reachable from the empty start through updates and deletes keeps every account under its own id |
| `AccountIndex.EnumerationContents` | stores/account-list-store.ts:11 | the account list has as many entries as the index has keys, and an account is listed iff it is a stored value |
| `AccountIndex.EnumerationDistinct` | stores/account-list-store.ts:11 | when the invariant holds, no account appears twice in the list |
| `AccountIndex.EnumerationMultiset` | stores/account-list-store.ts:11 | when the invariant holds, the list as a multiset equals the stored values: nothing extra, missing or repeated |
| `AccountListStore.AccountStore.constructor` | stores/account-list-store.ts:8 | a new store has an empty index and satisfies the invariant |
| `AccountListStore.AccountStore.UpdateAccount` | stores/account-list-store.ts:13-15 | the new index is `Upsert` of the old one, and the invariant is kept |
| `AccountListStore.AccountStore.DeleteAccount` | stores/account-list-store.ts:17-19 | the new index is `Remove` of the old one, and the invariant is kept |
| `AccountListStore.AccountStore.GetAccountById` | stores/account-list-store.ts:21-23 | returns the lookup of `id` in the current index and changes nothing; under the invariant a found account has the id asked for |
| `AccountListStore.AccountStore.Accounts` | stores/account-list-store.ts:11 | returns the index's values read off in some order that lists every key exactly once, and changes nothing |

## Left out

- The reactive store framework is not modelled. `defineStore`, `ref` and `computed` are
  plumbing; `accounts` is a method computed on demand from the current index.
- `persist: true` (stores/account-list-store.ts:34) is not modelled. It loads and saves the
  state in browser storage, which is I/O outside the store.
- `AccountListStore.AccountStore.Accounts` leaves the list's order open. JavaScript's
  `Object.values` order is fixed by the ECMAScript specification: integer-like keys ascending,
  then other keys in creation order. The code does not rely on it. The model states the list as
  one entry per key in some order, and its properties as set and multiset equalities.
- Records are modelled as values, not shared objects. In the source, `updateAccount` stores the
  caller's own object (stores/account-list-store.ts:14). `getAccountById` and `accounts` hand that
  same object back, and its `tags` array is mutable. So a caller that changes the object after
  storing it changes what the store returns; the model does not capture this aliasing.
  `KeyedById` and the lemmas that preserve it (`UpsertKeyed`, `RunKeyed`, `ReachableKeyed`) also
  assume that no caller changes a stored record in place, its `id` in particular. The record
  design treats `id` as fixed once the record is created.
- JavaScript object-key quirks are not modelled. Examples are `"__proto__"` as a key and
  inherited prototype properties.
- Direct writes to the exported `accountsIndex` (stores/account-list-store.ts:26) are not
  modelled. The invariant assumes every write goes through `UpdateAccount` or `DeleteAccount`.
- The store does not check ids. No member requires a non-empty id. The empty string is an
  ordinary key.
