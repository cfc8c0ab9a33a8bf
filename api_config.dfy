/** The server settings of the app: the API key, the server URL with its default, and an
    authorization flag that lives only in the object. */
module ApiSettings {
  import opened Opt
  import opened Strings
  import opened Prefs
  import opened ApiKeys

  const KeyApiKey: string := "api_key"
  const KeyServerUrl: string := "server_url"
  const DefaultServerUrl: string := "https://ehub.homeserver-ericp.fr"

  class ApiConfig {
    var authorized: bool
    const prefs: Preferences

    /** A new config over the shared preference file starts authorized, whatever the file says. */
    constructor(prefs: Preferences)
      ensures this.prefs == prefs && authorized
    {
      authorized := true;
      this.prefs := prefs;
    }

    /** The stored API key, null before any was set. */
    function GetApiKey(): (k: Option<string>)
      reads prefs
      ensures k.Some? <==> KeyApiKey in prefs.strings
      ensures k.Some? ==> k.value == prefs.strings[KeyApiKey]
    {
      prefs.GetString(KeyApiKey, None)
    }

    method SetApiKey(apiKey: string)
      modifies prefs
      ensures prefs.strings == old(prefs.strings)[KeyApiKey := apiKey]
      ensures GetApiKey() == Some(apiKey)
    {
      prefs.PutString(KeyApiKey, apiKey);
    }

    /** The stored server URL, or the default one. */
    function GetServerUrl(): (u: string)
      reads prefs
      ensures KeyServerUrl !in prefs.strings ==> u == DefaultServerUrl
      ensures KeyServerUrl in prefs.strings ==> u == prefs.strings[KeyServerUrl]
    {
      prefs.GetString(KeyServerUrl, Some(DefaultServerUrl)).GetOr(DefaultServerUrl)
    }

    /** Stores the URL without one trailing slash. */
    method SetServerUrl(url: string)
      modifies prefs
      ensures prefs.strings == old(prefs.strings)[KeyServerUrl := DropTrailingSlash(url)]
      ensures GetServerUrl() + (if EndsWith(url, "/") then "/" else "") == url
    {
      var cleanUrl := if EndsWith(url, "/") then url[..|url| - 1] else url;
      prefs.PutString(KeyServerUrl, cleanUrl);
    }

    /** A key is configured when one is stored and it is not blank, which is exactly when
        requests carry an authorization header. */
    function IsApiKeyConfigured(): (b: bool)
      reads prefs
      ensures b <==> KeyApiKey in prefs.strings && !IsBlank(prefs.strings[KeyApiKey])
      ensures b <==> AuthHeader(GetApiKey()).Some?
    {
      !IsNullOrBlank(GetApiKey())
    }

    /** The flag changes in this object only; the preference file is untouched. */
    method SetAuthorized(value: bool)
      modifies this`authorized
      ensures authorized == value
    {
      authorized := value;
    }
  }
}
