/**
 * The persisted list of paired bridges (`getStoredAccounts` / `addStoredAccount`).
 *
 * `localStorage` is a string-keyed store; the client keeps one entry, `"bridgeAccounts"`,
 * holding the JSON text of the bridge list. The model stores the list itself under that
 * key: `JSON.stringify` followed by `JSON.parse` gives back the same records.
 */
module CredentialStore {
  import opened Js

  /**
   * A bridge record: its address, the UDN read from its description (absent for records
   * entered without one), a display name, and the API username issued at pairing
   * (`undefined` until then; any JSON value the bridge returned after).
   */
  datatype Bridge = Bridge(ip: string, uuid: Option<string>, name: string, account: JsValue)

  const AccountsKey: string := "bridgeAccounts"

  /** The browser's `localStorage`, restricted to the entries the client writes. */
  class Storage {
    var items: map<string, seq<Bridge>>

    constructor(items0: map<string, seq<Bridge>>)
      ensures items == items0
    {
      items := items0;
    }
  }

  /** The list `getStoredAccounts` finds among the entries `items`: the stored one, or `[]`. */
  function StoredAccounts(items: map<string, seq<Bridge>>): seq<Bridge>
  {
    if AccountsKey in items then items[AccountsKey] else []
  }

  /** `getStoredAccounts()` */
  function GetStoredAccounts(store: Storage): seq<Bridge>
    reads store
  {
    StoredAccounts(store.items)
  }

  ghost predicate HasUuid(accounts: seq<Bridge>, uuid: Option<string>)
  {
    exists i :: 0 <= i < |accounts| && accounts[i].uuid == uuid
  }

  /** No two records share a `uuid` (two records without one count as equal). */
  ghost predicate UniqueUuids(accounts: seq<Bridge>)
  {
    forall i, j :: 0 <= i < j < |accounts| ==> accounts[i].uuid != accounts[j].uuid
  }

  /**
   * The list `addStoredAccount(data)` writes back: `data` is pushed unless `find` meets a
   * record with an equal `uuid`, in which case the list is written back unchanged.
   */
  function WithAccount(accounts: seq<Bridge>, data: Bridge): (r: seq<Bridge>)
    ensures HasUuid(accounts, data.uuid) ==> r == accounts
    ensures !HasUuid(accounts, data.uuid) ==> r == accounts + [data]
  {
    if FindFirst(accounts, (b: Bridge) => b.uuid == data.uuid).Some? then accounts
    else accounts + [data]
  }

  /**
   * Adding keeps every earlier record in place, grows the list by at most one, leaves a
   * record with `data`'s uuid in it, and keeps uuids unique.
   */
  lemma WithAccountInvariant(accounts: seq<Bridge>, data: Bridge)
    ensures var r := WithAccount(accounts, data);
      |accounts| <= |r| <= |accounts| + 1 && r[..|accounts|] == accounts && HasUuid(r, data.uuid)
    ensures UniqueUuids(accounts) ==> UniqueUuids(WithAccount(accounts, data))
  {
    var r := WithAccount(accounts, data);
    if !HasUuid(accounts, data.uuid) {
      assert r[|accounts|] == data;
      assert r[..|accounts|] == accounts;
    }
  }

  /** Adding a record whose uuid is already stored changes nothing, whatever its ip. */
  lemma WithAccountIdempotent(accounts: seq<Bridge>, data: Bridge)
    ensures WithAccount(WithAccount(accounts, data), data) == WithAccount(accounts, data)
  {
    WithAccountInvariant(accounts, data);
  }

  /** The entries `addStoredAccount(data)` leaves behind. */
  function AddedItems(items: map<string, seq<Bridge>>, data: Bridge): map<string, seq<Bridge>>
  {
    items[AccountsKey := WithAccount(StoredAccounts(items), data)]
  }

  /**
   * After `addStoredAccount(data)`, `getStoredAccounts()` gives the old list with `data`
   * appended unless its uuid was stored, a record with that uuid is stored, uuids stay
   * unique, and every other entry is as it was. The first account added to an empty
   * store is the whole list.
   */
  lemma ReadAfterAdd(items: map<string, seq<Bridge>>, data: Bridge, other: string)
    ensures StoredAccounts(AddedItems(items, data)) == WithAccount(StoredAccounts(items), data)
    ensures HasUuid(StoredAccounts(AddedItems(items, data)), data.uuid)
    ensures UniqueUuids(StoredAccounts(items)) ==> UniqueUuids(StoredAccounts(AddedItems(items, data)))
    ensures AccountsKey !in items ==> StoredAccounts(AddedItems(items, data)) == [data]
    ensures other != AccountsKey ==>
      (other in AddedItems(items, data) <==> other in items) &&
      (other in items ==> AddedItems(items, data)[other] == items[other])
  {
    WithAccountInvariant(StoredAccounts(items), data);
  }

  /**
   * `addStoredAccount(data)`: read the list, push `data` when no stored record has its
   * uuid, and always write the key back; no other key changes.
   */
  method AddStoredAccount(store: Storage, data: Bridge)
    modifies store
    ensures store.items == old(store.items)[AccountsKey := WithAccount(old(GetStoredAccounts(store)), data)]
    ensures store.items == AddedItems(old(store.items), data)
    ensures GetStoredAccounts(store) == WithAccount(old(GetStoredAccounts(store)), data)
  {
    var accounts := GetStoredAccounts(store);
    if FindFirst(accounts, (b: Bridge) => b.uuid == data.uuid).None? {
      accounts := accounts + [data];
    }
    store.items := store.items[AccountsKey := accounts];
  }
}
