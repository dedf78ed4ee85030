/** src/helpers/in_memory_session.ts: the session password, kept for the lifetime of the app. */
module InMemorySessions {
  import opened Prelude

  class InMemorySession {
    /** The stores the environment offers: that of the desktop app goes first. */
    const hasAppDataStore: bool
    const hasSessionStorage: bool
    var appDataStore: Option<JsString>
    var sessionStorage: Option<JsString>

    constructor (hasAppDataStore: bool, hasSessionStorage: bool,
                 appDataStore: Option<JsString>, sessionStorage: Option<JsString>)
      ensures this.hasAppDataStore == hasAppDataStore && this.hasSessionStorage == hasSessionStorage
      ensures this.appDataStore == appDataStore && this.sessionStorage == sessionStorage
    {
      this.hasAppDataStore, this.hasSessionStorage := hasAppDataStore, hasSessionStorage;
      this.appDataStore, this.sessionStorage := appDataStore, sessionStorage;
    }

    predicate StoreAvailable() { hasAppDataStore || hasSessionStorage }

    function GetPassword(): Option<JsString>
      reads this
    {
      if hasAppDataStore then appDataStore
      else if !hasSessionStorage then None
      else sessionStorage
    }

    /** `None` stands for `undefined`, which removes the password. */
    method SetPassword(password: Option<JsString>)
      modifies this
      ensures GetPassword() == if StoreAvailable() then password else None
      ensures appDataStore == if hasAppDataStore then password else old(appDataStore)
      ensures sessionStorage == if !hasAppDataStore && hasSessionStorage then password else old(sessionStorage)
    {
      if hasAppDataStore {
        appDataStore := password;
        return;
      }
      if !hasSessionStorage {
        return;
      }
      sessionStorage := password;
    }

    method ClearPassword()
      modifies this
      ensures GetPassword() == None
    {
      SetPassword(None);
    }
  }
}
