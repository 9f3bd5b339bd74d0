/** `VersionChecker` of subdivx_dl/version.py: the version declared in the published
    `version.py`, read from the body of the HTTP response, against the installed one. */
module Version {
  import opened Python
  import Matchers

  /** `__version__`, in the form yyyy.mm.dd. */
  const Installed: string := "2024.12.24"

  const NewVersion: string := "New version available: "
  const UpToDate: string := "Using the latest version"

  /** What `requests.get` returned: the status code and the body as text. */
  datatype Response = Response(statusCode: int, text: string)

  /** The checker holds the installed version and never changes it. */
  datatype VersionChecker = VersionChecker(version: string)

  /** `get_latest_version`: the group of the first `__version__ = '<d>.<d>.<d>'` in the
      body of a 200 response, and `None` otherwise. */
  function LatestVersion(response: Response): (r: Option<string>)
    ensures r.None? <==> (|| response.statusCode != 200
                          || forall i, j :: 0 <= i <= j <= |response.text| ==>
                               !Matchers.DeclSpan(response.text, i, j, Matchers.VersionPrefix))
    ensures r.Some? ==> Matchers.IsTriple(r.value, '.')
    ensures r.Some? ==> exists i :: Matchers.FirstDeclAt(response.text, i, r.value, Matchers.VersionPrefix)
  {
    if response.statusCode != 200 then None
    else
      Matchers.SearchDeclSpec(response.text, Matchers.VersionPrefix);
      match Matchers.SearchDecl(response.text, Matchers.VersionPrefix)
      case None => None
      case Some((i, e)) =>
        Matchers.SearchDeclGroup(response.text, Matchers.VersionPrefix);
        Some(response.text[i + |Matchers.VersionPrefix|..e])
  }

  /** A response whose body is the published declaration gives its version back. */
  lemma LatestVersionOwn(v: string)
    requires Matchers.IsTriple(v, '.')
    ensures LatestVersion(Response(200, Matchers.VersionPrefix + v + "'")) == Some(v)
  {
    var key := Matchers.VersionPrefix;
    var s := key + v + "'";
    Matchers.SearchDeclOwn(v, key);
    assert s[|key|..|key| + |v|] == v;
  }

  /** `check_version`: a newer version is announced exactly when one was found and it is
      greater than the installed one as a string. */
  function CheckVersion(checker: VersionChecker, response: Response): (message: string)
    ensures var latest := LatestVersion(response);
      message != UpToDate <==> latest.Some? && StrLess(checker.version, latest.value)
    ensures message != UpToDate ==> message == NewVersion + LatestVersion(response).value
  {
    var latest := LatestVersion(response);
    if latest.Some? && latest.value != "" && StrLess(checker.version, latest.value) then
      assert (NewVersion + latest.value)[0] != UpToDate[0];
      NewVersion + latest.value
    else
      UpToDate
  }

  /** The installed version found again is not announced, and neither is an older one. */
  lemma CheckVersionNotNewer(checker: VersionChecker, response: Response)
    requires LatestVersion(response).Some?
    requires LatestVersion(response).value == checker.version || StrLess(LatestVersion(response).value, checker.version)
    ensures CheckVersion(checker, response) == UpToDate
  {
    StrLessIrreflexive(checker.version);
    StrLessAsymmetric(checker.version, LatestVersion(response).value);
  }

  /** Against a body that is one declaration, the answer depends only on how the two
      versions compare as strings. */
  lemma CheckVersionOwn(checker: VersionChecker, v: string)
    requires Matchers.IsTriple(v, '.')
    ensures CheckVersion(checker, Response(200, Matchers.VersionPrefix + v + "'"))
         == if StrLess(checker.version, v) then NewVersion + v else UpToDate
  {
    LatestVersionOwn(v);
  }

  /** Versions compare as strings, not number by number: `2024.9.1` counts as newer than
      `2024.12.24`, since `9` comes after `1`. */
  lemma CheckVersionLexicographic()
    ensures CheckVersion(VersionChecker(Installed), Response(200, Matchers.VersionPrefix + "2024.9.1" + "'"))
         == NewVersion + "2024.9.1"
  {
    ExampleVersion();
    CheckVersionOwn(VersionChecker(Installed), "2024.9.1");
  }

  lemma ExampleVersion()
    ensures Matchers.IsTriple("2024.9.1", '.') && StrLess(Installed, "2024.9.1")
  {
    assert Matchers.TripleAt("2024.9.1", 0, 4, 6, 8, '.');
  }

  /** The line that declares the installed version, fetched with status 200, gives the
      installed version back, and then nothing is announced. */
  lemma InstalledFoundAgain()
    ensures LatestVersion(Response(200, Matchers.VersionPrefix + Installed + "'")) == Some(Installed)
    ensures CheckVersion(VersionChecker(Installed), Response(200, Matchers.VersionPrefix + Installed + "'")) == UpToDate
  {
    assert Matchers.TripleAt(Installed, 0, 4, 7, 10, '.');
    LatestVersionOwn(Installed);
    CheckVersionNotNewer(VersionChecker(Installed), Response(200, Matchers.VersionPrefix + Installed + "'"));
  }
}
