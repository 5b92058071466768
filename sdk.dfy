/**
 * SDK initialisation: the process-wide `isSdkInit` flag with its guard,
 * and `EraSdk.initialize`, which stores the credentials and then raises
 * the flag.
 */
module Sdk {
  import opened Failures
  import opened Preferences

  /**
   * The guard as a function of the flag: true when the SDK is initialised,
   * otherwise `EraSdkUnInitializedException` with exactly the caller's
   * message.  It never returns false.
   */
  function InitializationCheck(isSdkInit: bool, errorMessage: string): (r: Try<bool>)
    ensures r != Ok(false)
    ensures r == Ok(true) <==> isSdkInit
    ensures !isSdkInit ==> r == Thrown(Raised(EraSdkUnInitializedException, Some(errorMessage)))
  {
    if isSdkInit then Ok(true) else Throw(EraSdkUnInitializedException, errorMessage)
  }

  /** The singleton `SdkInitiatedValidator`. */
  class SdkInitiatedValidator {
    var isSdkInit: bool

    /** The flag starts false. */
    constructor ()
      ensures !isSdkInit
    {
      isSdkInit := false;
    }

    /** `checkIfSDKIsInitialized(errorMessage)`: reads the flag and changes nothing. */
    method CheckIfSdkIsInitialized(errorMessage: string) returns (r: Try<bool>)
      ensures r == InitializationCheck(isSdkInit, errorMessage)
      ensures r != Ok(false) && (r == Ok(true) <==> isSdkInit)
    {
      if isSdkInit {
        r := Ok(true);
      } else {
        r := Thrown(Raised(EraSdkUnInitializedException, Some(errorMessage)));
      }
    }
  }

  /** The store after `initialize(host, clientId, clientSecret)`'s three writes. */
  function Initialized(store: map<string, string>, host: string, clientId: string, clientSecret: string): (r: map<string, string>)
    ensures Host(r) == host && ClientId(r) == clientId && ClientSecret(r) == clientSecret
    ensures r.Keys == store.Keys + {KEY_HOST, KEY_CLIENT_ID, KEY_CLIENT_SECRET}
    ensures forall k :: k in store && k != KEY_HOST && k != KEY_CLIENT_ID && k != KEY_CLIENT_SECRET ==> r[k] == store[k]
  {
    store[KEY_HOST := host][KEY_CLIENT_ID := clientId][KEY_CLIENT_SECRET := clientSecret]
  }

  /** Initialising again replaces all three values with the latest arguments. */
  lemma ReinitializeOverwrites(store: map<string, string>, h1: string, i1: string, s1: string, h2: string, i2: string, s2: string)
    ensures Initialized(Initialized(store, h1, i1, s1), h2, i2, s2) == Initialized(store, h2, i2, s2)
  {
  }

  class EraSdk {
    const preferences: EmgDataPreferences
    const validator: SdkInitiatedValidator

    constructor (preferences: EmgDataPreferences, validator: SdkInitiatedValidator)
      ensures this.preferences == preferences && this.validator == validator
    {
      this.preferences := preferences;
      this.validator := validator;
    }

    /** `initialize(host, clientId, clientSecret)`: three store writes, then the flag. */
    method Initialize(host: string, clientId: string, clientSecret: string)
      modifies preferences, validator
      ensures preferences.store == Initialized(old(preferences.store), host, clientId, clientSecret)
      ensures validator.isSdkInit
    {
      preferences.SetHost(host);
      preferences.SetClientId(clientId);
      preferences.SetClientSecret(clientSecret);
      validator.isSdkInit := true;
    }
  }

  /**
   * A fresh SDK initialised with a host, a client id and a client secret
   * reads back exactly those three values, and its guard passes.
   */
  method InitializeScenario() returns (host: string, clientId: string, clientSecret: string, check: Try<bool>)
    ensures host == "https://www.rapidsos.com" && clientId == "abc123" && clientSecret == "123abc"
    ensures check == Ok(true)
  {
    var preferences := new EmgDataPreferences(map[]);
    var validator := new SdkInitiatedValidator();
    var sdk := new EraSdk(preferences, validator);
    sdk.Initialize("https://www.rapidsos.com", "abc123", "123abc");
    host := preferences.GetHost();
    clientId := preferences.GetClientId();
    clientSecret := preferences.GetClientSecret();
    check := validator.CheckIfSdkIsInitialized("not initialized");
  }
}
