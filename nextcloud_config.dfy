/** The NextCloud settings: server URL, WebDAV endpoint, user name and password in their own
    preference file. */
module NextCloudSettings {
  import opened Opt
  import opened Strings
  import opened Prefs

  const KeyServerUrl: string := "server_url"
  const KeyWebdavUrl: string := "webdav_url"
  const KeyUsername: string := "username"
  const KeyPassword: string := "password"
  const DefaultWebdavEndpoint: string := "/remote.php/dav/files/"

  /** The endpoint as stored: a slash added in front and at the end where missing. */
  function NormalizedEndpoint(endpoint: string): (r: string)
    ensures StartsWith(r, "/") && EndsWith(r, "/")
    ensures |endpoint| <= |r| <= |endpoint| + 2
    ensures r[..|endpoint|] == endpoint || (|endpoint| < |r| && r[1..|endpoint| + 1] == endpoint)
    ensures endpoint == "" ==> r == "/"
    ensures StartsWith(endpoint, "/") && EndsWith(endpoint, "/") ==> r == endpoint
  {
    var front := if StartsWith(endpoint, "/") then endpoint else "/" + endpoint;
    assert front[..|endpoint|] == endpoint || front[1..|endpoint| + 1] == endpoint;
    if EndsWith(front, "/") then front
    else
      var r := front + "/";
      assert r[..|front|] == front;
      r
  }

  /** Normalising twice is normalising once. */
  lemma NormalizedEndpointIdempotent(endpoint: string)
    ensures NormalizedEndpoint(NormalizedEndpoint(endpoint)) == NormalizedEndpoint(endpoint)
  {
  }

  class NextCloudConfig {
    const prefs: Preferences

    constructor(prefs: Preferences)
      ensures this.prefs == prefs
    {
      this.prefs := prefs;
    }

    function GetServerUrl(): (u: string)
      reads prefs
      ensures u == if KeyServerUrl in prefs.strings then prefs.strings[KeyServerUrl] else ""
    {
      prefs.GetString(KeyServerUrl, Some("")).GetOr("")
    }

    /** Stores the URL without one trailing slash. */
    method SetServerUrl(url: string)
      modifies prefs
      ensures prefs.strings == old(prefs.strings)[KeyServerUrl := DropTrailingSlash(url)]
      ensures GetServerUrl() == DropTrailingSlash(url)
    {
      var cleanUrl := if EndsWith(url, "/") then url[..|url| - 1] else url;
      prefs.PutString(KeyServerUrl, cleanUrl);
    }

    function GetWebdavEndpoint(): (e: string)
      reads prefs
      ensures e == if KeyWebdavUrl in prefs.strings then prefs.strings[KeyWebdavUrl] else DefaultWebdavEndpoint
    {
      prefs.GetString(KeyWebdavUrl, Some(DefaultWebdavEndpoint)).GetOr(DefaultWebdavEndpoint)
    }

    /** Stores the endpoint with a leading and a trailing slash; whether the settings count as
        configured does not change. */
    method SetWebdavEndpoint(endpoint: string)
      modifies prefs
      ensures prefs.strings == old(prefs.strings)[KeyWebdavUrl := NormalizedEndpoint(endpoint)]
      ensures StartsWith(GetWebdavEndpoint(), "/") && EndsWith(GetWebdavEndpoint(), "/")
      ensures IsConfigured() == old(IsConfigured())
    {
      var cleanEndpoint := endpoint;
      if !StartsWith(cleanEndpoint, "/") {
        cleanEndpoint := "/" + cleanEndpoint;
      }
      if !EndsWith(cleanEndpoint, "/") {
        cleanEndpoint := cleanEndpoint + "/";
      }
      prefs.PutString(KeyWebdavUrl, cleanEndpoint);
    }

    function GetUsername(): (u: string)
      reads prefs
      ensures u == if KeyUsername in prefs.strings then prefs.strings[KeyUsername] else ""
    {
      prefs.GetString(KeyUsername, Some("")).GetOr("")
    }

    method SetUsername(username: string)
      modifies prefs
      ensures prefs.strings == old(prefs.strings)[KeyUsername := username]
      ensures GetUsername() == username && GetPassword() == old(GetPassword())
    {
      prefs.PutString(KeyUsername, username);
    }

    function GetPassword(): (p: string)
      reads prefs
      ensures p == if KeyPassword in prefs.strings then prefs.strings[KeyPassword] else ""
    {
      prefs.GetString(KeyPassword, Some("")).GetOr("")
    }

    method SetPassword(password: string)
      modifies prefs
      ensures prefs.strings == old(prefs.strings)[KeyPassword := password]
      ensures GetPassword() == password && GetUsername() == old(GetUsername())
    {
      prefs.PutString(KeyPassword, password);
    }

    /** Configured: server URL, user name and password all stored and not blank. The WebDAV
        endpoint plays no part. */
    function IsConfigured(): (b: bool)
      reads prefs
      ensures b <==> !IsBlank(GetServerUrl()) && !IsBlank(GetUsername()) && !IsBlank(GetPassword())
      ensures b ==> KeyServerUrl in prefs.strings && KeyUsername in prefs.strings && KeyPassword in prefs.strings
    {
      !IsBlank(GetServerUrl()) && !IsBlank(GetUsername()) && !IsBlank(GetPassword())
    }

    /** Forgets the user name and password, which then read as empty; the rest stays. */
    method ClearCredentials()
      modifies prefs
      ensures prefs.strings == old(prefs.strings) - {KeyUsername, KeyPassword}
      ensures GetUsername() == "" && GetPassword() == "" && !IsConfigured()
      ensures GetServerUrl() == old(GetServerUrl()) && GetWebdavEndpoint() == old(GetWebdavEndpoint())
    {
      prefs.Remove({KeyUsername, KeyPassword});
    }
  }
}
