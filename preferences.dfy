/**
 * `EmgDataPreferences`: the host, client id and client secret, kept in a
 * string store under three fixed keys.  The encrypted store behind it is
 * a plain string map here; a key that was never written reads as "".
 */
module Preferences {

  const KEY_CLIENT_ID: string := "key_client_id"
  const KEY_CLIENT_SECRET: string := "key_client_secret"
  const KEY_HOST: string := "key_host"

  /** The three keys are pairwise different, so each value has a slot of its own. */
  lemma KeysDistinct()
    ensures KEY_HOST != KEY_CLIENT_ID && KEY_HOST != KEY_CLIENT_SECRET && KEY_CLIENT_ID != KEY_CLIENT_SECRET
  {
  }

  /** `getString(key, default)` of the store. */
  function GetString(store: map<string, string>, key: string, default: string): (v: string)
    ensures key in store ==> v == store[key]
    ensures key !in store ==> v == default
  {
    if key in store then store[key] else default
  }

  function Host(store: map<string, string>): string {
    GetString(store, KEY_HOST, "")
  }

  function ClientId(store: map<string, string>): string {
    GetString(store, KEY_CLIENT_ID, "")
  }

  function ClientSecret(store: map<string, string>): string {
    GetString(store, KEY_CLIENT_SECRET, "")
  }

  /** Nothing stored yet: every getter reads the default "". */
  lemma DefaultsAreEmpty()
    ensures Host(map[]) == "" && ClientId(map[]) == "" && ClientSecret(map[]) == ""
  {
  }

  /** Writing the host is read back by the host getter and leaves the other two values alone. */
  lemma HostWriteIsolated(store: map<string, string>, host: string)
    ensures Host(store[KEY_HOST := host]) == host
    ensures ClientId(store[KEY_HOST := host]) == ClientId(store)
    ensures ClientSecret(store[KEY_HOST := host]) == ClientSecret(store)
  {
  }

  lemma ClientIdWriteIsolated(store: map<string, string>, clientId: string)
    ensures ClientId(store[KEY_CLIENT_ID := clientId]) == clientId
    ensures Host(store[KEY_CLIENT_ID := clientId]) == Host(store)
    ensures ClientSecret(store[KEY_CLIENT_ID := clientId]) == ClientSecret(store)
  {
  }

  lemma ClientSecretWriteIsolated(store: map<string, string>, clientSecret: string)
    ensures ClientSecret(store[KEY_CLIENT_SECRET := clientSecret]) == clientSecret
    ensures Host(store[KEY_CLIENT_SECRET := clientSecret]) == Host(store)
    ensures ClientId(store[KEY_CLIENT_SECRET := clientSecret]) == ClientId(store)
  {
  }

  /** For one key, the last write wins. */
  lemma LastWriteWins(store: map<string, string>, key: string, first: string, second: string)
    ensures GetString(store[key := first][key := second], key, "") == second
  {
  }

  class EmgDataPreferences {
    /** The backing store (SecureSharedPreferences). */
    var store: map<string, string>

    constructor (initial: map<string, string>)
      ensures store == initial
    {
      store := initial;
    }

    method GetHost() returns (host: string)
      ensures host == GetString(store, KEY_HOST, "")
    {
      host := if KEY_HOST in store then store[KEY_HOST] else "";
    }

    method SetHost(host: string)
      modifies this
      ensures store == old(store)[KEY_HOST := host]
      ensures Host(store) == host && ClientId(store) == ClientId(old(store)) && ClientSecret(store) == ClientSecret(old(store))
    {
      store := store[KEY_HOST := host];
    }

    method GetClientId() returns (clientId: string)
      ensures clientId == GetString(store, KEY_CLIENT_ID, "")
    {
      clientId := if KEY_CLIENT_ID in store then store[KEY_CLIENT_ID] else "";
    }

    method SetClientId(clientId: string)
      modifies this
      ensures store == old(store)[KEY_CLIENT_ID := clientId]
      ensures ClientId(store) == clientId && Host(store) == Host(old(store)) && ClientSecret(store) == ClientSecret(old(store))
    {
      store := store[KEY_CLIENT_ID := clientId];
    }

    method GetClientSecret() returns (clientSecret: string)
      ensures clientSecret == GetString(store, KEY_CLIENT_SECRET, "")
    {
      clientSecret := if KEY_CLIENT_SECRET in store then store[KEY_CLIENT_SECRET] else "";
    }

    method SetClientSecret(clientSecret: string)
      modifies this
      ensures store == old(store)[KEY_CLIENT_SECRET := clientSecret]
      ensures ClientSecret(store) == clientSecret && Host(store) == Host(old(store)) && ClientId(store) == ClientId(old(store))
    {
      store := store[KEY_CLIENT_SECRET := clientSecret];
    }
  }
}
