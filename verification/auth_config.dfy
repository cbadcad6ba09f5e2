/** The configuration of the KBase auth client: the base URLs of the KBase
    authorization server and of Globus Online, the Globus group whose members
    are the KBase users, and an optional refreshing token for Globus queries.
    The Java class mutates itself and returns `this`; here every setter is a
    pure function from a configuration to an updated one or an error. */
module AuthConfigs {
  import opened Wrappers
  import opened Uuids
  import opened Uris

  /** A token that refreshes itself; this configuration only holds on to it,
      so it is an opaque handle here. */
  datatype RefreshingToken = RefreshingToken(handle: nat)

  /** The four fields of the Java class. */
  datatype AuthConfig = AuthConfig(
    authServerUrl: string,
    globusUrl: string,
    usersGroupId: Uuid,
    token: Option<RefreshingToken>)

  /** The exceptions a setter throws: NullPointerException with its message,
      and URISyntaxException for the URL that did not convert to a URI. */
  datatype Error = NullArgument(message: string) | UriSyntax(input: string)

  const DefaultKBaseAuthServerUrl: string := "https://www.kbase.us/services/authorization/"
  const DefaultGlobusAuthUrl: string := "https://nexus.api.globusonline.org/"
  const DefaultKBaseUserGroupId: string := "99d2a548-7218-11e2-adc0-12313d2d6e7f"

  const LoginLoc: string := "Sessions/Login"
  const GlobusGroups: string := "groups/"
  const GlobusUsers: string := "users/"
  const GlobusGroupMembers: string := "/members/"

  /** What every configuration keeps: both base URLs are valid absolute URIs
      ending in '/'. */
  predicate Valid(c: AuthConfig) {
    && ValidAbsoluteURI(c.authServerUrl) && EndsWithSlash(c.authServerUrl)
    && ValidAbsoluteURI(c.globusUrl) && EndsWithSlash(c.globusUrl)
  }

  // ---------------------------------------------------------------------
  // The default configuration

  lemma HttpsScheme()
    ensures var t := "https"; AllUriChars(t) && PathOnly(t) && IsScheme(t)
  {
    var t := "https";
    forall i | 0 <= i < |t| ensures IsUriChar(t[i]) && t[i] != '?' && t[i] != '#' && IsSchemeChar(t[i]) {
      assert i in {0, 1, 2, 3, 4};
    }
  }

  lemma KBaseAuthority()
    ensures var t := "www.kbase.us"; AllUriChars(t) && PathOnly(t) && NoBracketsIn(t, 0, |t|)
    ensures var t := "www.kbase.us"; forall j :: 0 <= j < |t| ==> t[j] != '/'
  {
    var t := "www.kbase.us";
    forall i | 0 <= i < |t| ensures IsUriChar(t[i]) && t[i] != '?' && t[i] != '#' && t[i] != '/' && t[i] != '[' && t[i] != ']' {
      assert i in {0, 1, 2, 3, 4, 5, 6, 7, 8, 9, 10, 11};
    }
  }

  lemma KBaseAuthPath()
    ensures var t := "/services/authorization/"; AllUriChars(t) && PathOnly(t) && NoDotChar(t) && NoBracketsIn(t, 0, |t|)
  {
    var t := "/services/authorization/";
    forall i | 0 <= i < |t| ensures IsUriChar(t[i]) && t[i] != '?' && t[i] != '#' && t[i] != '.' && t[i] != '[' && t[i] != ']' {
      assert i in {0, 1, 2, 3, 4, 5, 6, 7, 8, 9, 10, 11, 12, 13, 14, 15, 16, 17, 18, 19, 20, 21, 22, 23};
    }
  }

  lemma KBaseAuthPathSlashes()
    ensures NoDoubleSlash("/services/authorization/")
  {
    var t := "/services/authorization/";
    forall i | 0 <= i < |t| - 1 ensures t[i] != '/' || t[i + 1] != '/' {
      assert i in {0, 1, 2, 3, 4, 5, 6, 7, 8, 9, 10, 11, 12, 13, 14, 15, 16, 17, 18, 19, 20, 21, 22};
    }
  }

  lemma GlobusAuthority()
    ensures var t := "nexus.api.globusonline.org"; AllUriChars(t) && PathOnly(t) && NoBracketsIn(t, 0, |t|)
    ensures var t := "nexus.api.globusonline.org"; forall j :: 0 <= j < |t| ==> t[j] != '/'
  {
    var t := "nexus.api.globusonline.org";
    forall i | 0 <= i < |t| ensures IsUriChar(t[i]) && t[i] != '?' && t[i] != '#' && t[i] != '/' && t[i] != '[' && t[i] != ']' {
      assert i in {0, 1, 2, 3, 4, 5, 6, 7, 8, 9, 10, 11, 12, 13, 14, 15, 16, 17, 18, 19, 20, 21, 22, 23, 24, 25};
    }
  }

  lemma RootPath()
    ensures AllUriChars("/") && PathOnly("/") && NoDotChar("/") && NoDoubleSlash("/") && NoBracketsIn("/", 0, 1)
  {
    var t := "/";
    assert t[0] == '/';
  }

  lemma KBaseUrlParts()
    ensures DefaultKBaseAuthServerUrl == "https" + "://" + "www.kbase.us" + "/services/authorization/"
  {
  }

  lemma GlobusUrlParts()
    ensures DefaultGlobusAuthUrl == "https" + "://" + "nexus.api.globusonline.org" + "/"
  {
  }

  lemma DefaultKBaseAuthServerUrlValid()
    ensures ValidAbsoluteURI(DefaultKBaseAuthServerUrl) && PathOnly(DefaultKBaseAuthServerUrl)
  {
    HttpsScheme();
    KBaseAuthority();
    KBaseAuthPath();
    KBaseUrlParts();
    ValidFromParts(DefaultKBaseAuthServerUrl, "https", "www.kbase.us", "/services/authorization/");
  }

  lemma DefaultGlobusAuthUrlValid()
    ensures ValidAbsoluteURI(DefaultGlobusAuthUrl) && PathOnly(DefaultGlobusAuthUrl)
  {
    HttpsScheme();
    GlobusAuthority();
    RootPath();
    GlobusUrlParts();
    ValidFromParts(DefaultGlobusAuthUrl, "https", "nexus.api.globusonline.org", "/");
  }

  /** The default authorization server path needs no normalisation. */
  lemma DefaultKBaseAuthServerUrlNormal()
    ensures ValidAbsoluteURI(DefaultKBaseAuthServerUrl) && NormalBasePath(DefaultKBaseAuthServerUrl)
  {
    DefaultKBaseAuthServerUrlValid();
    HttpsScheme();
    KBaseAuthority();
    KBaseAuthPath();
    KBaseAuthPathSlashes();
    KBaseUrlParts();
    PathOfParts(DefaultKBaseAuthServerUrl, "https", "www.kbase.us", "/services/authorization/");
    NoDotCharNoDotSegment("/services/authorization/");
  }

  /** The default Globus path needs no normalisation. */
  lemma DefaultGlobusAuthUrlNormal()
    ensures ValidAbsoluteURI(DefaultGlobusAuthUrl) && NormalBasePath(DefaultGlobusAuthUrl)
  {
    DefaultGlobusAuthUrlValid();
    HttpsScheme();
    GlobusAuthority();
    RootPath();
    GlobusUrlParts();
    PathOfParts(DefaultGlobusAuthUrl, "https", "nexus.api.globusonline.org", "/");
    NoDotCharNoDotSegment("/");
  }

  lemma DefaultKBaseUserGroupIdCanonical()
    ensures IsCanonical(DefaultKBaseUserGroupId)
  {
    var g1, g2, g3, g4, g5 := "99d2a548", "7218", "11e2", "adc0", "12313d2d6e7f";
    DefaultGroupIdJoin();
    DefaultGroupsShortHex();
    DefaultGroupsLongHex();
    JoinSlices(g1, g2, g3, g4, g5);
  }

  lemma DefaultGroupIdJoin()
    ensures DefaultKBaseUserGroupId == Join("99d2a548", "7218", "11e2", "adc0", "12313d2d6e7f")
  {
  }

  lemma DefaultGroupsShortHex()
    ensures AllHex("7218") && AllHex("11e2") && AllHex("adc0")
  {
    var g2, g3, g4 := "7218", "11e2", "adc0";
    forall i | 0 <= i < 4 ensures IsHexChar(g2[i]) && IsHexChar(g3[i]) && IsHexChar(g4[i]) {
      assert i in {0, 1, 2, 3};
    }
  }

  lemma DefaultGroupsLongHex()
    ensures AllHex("99d2a548") && AllHex("12313d2d6e7f")
  {
    var g1, g5 := "99d2a548", "12313d2d6e7f";
    forall i | 0 <= i < 8 ensures IsHexChar(g1[i]) {
      assert i in {0, 1, 2, 3, 4, 5, 6, 7};
    }
    forall i | 0 <= i < 12 ensures IsHexChar(g5[i]) {
      assert i in {0, 1, 2, 3, 4, 5, 6, 7, 8, 9, 10, 11};
    }
  }

  /** The group read from the default group ID string, as UUID.fromString does. */
  function DefaultUsersGroupId(): (g: Uuid)
    ensures ToString(g) == DefaultKBaseUserGroupId
  {
    DefaultKBaseUserGroupIdCanonical();
    ToStringParse(DefaultKBaseUserGroupId);
    Parse(DefaultKBaseUserGroupId).value
  }

  /** The configuration the no-argument constructor builds; it has no token. */
  function Default(): (c: AuthConfig)
    ensures Valid(c)
    ensures PathOnly(c.authServerUrl) && PathOnly(c.globusUrl)
    ensures NormalBasePath(c.authServerUrl) && NormalBasePath(c.globusUrl)
    ensures ToString(c.usersGroupId) == DefaultKBaseUserGroupId
    ensures c.token.None?
  {
    DefaultKBaseAuthServerUrlValid();
    DefaultGlobusAuthUrlValid();
    DefaultKBaseAuthServerUrlNormal();
    DefaultGlobusAuthUrlNormal();
    AuthConfig(DefaultKBaseAuthServerUrl, DefaultGlobusAuthUrl, DefaultUsersGroupId(), None)
  }

  // ---------------------------------------------------------------------
  // Setters

  /** The base URL a URL setter stores: a null argument fails with
      `nullMessage`; otherwise the URL's string form gets a trailing '/' if it
      lacks one, and the outcome must convert to a URI. */
  function StoreBase(url: Option<string>, nullMessage: string): (r: Result<string, Error>)
    ensures url.None? ==> r == Failure(NullArgument(nullMessage))
    ensures r.Success? <==> url.Some? && ValidAbsoluteURI(NormalizeBase(url.value))
    ensures url.Some? && r.Failure? ==> r.error == UriSyntax(NormalizeBase(url.value))
    ensures url.Some? && ValidAbsoluteURI(url.value) ==> r.Success?
    ensures r.Success? ==> ValidAbsoluteURI(r.value) && EndsWithSlash(r.value)
    ensures r.Success? && EndsWithSlash(url.value) ==> r.value == url.value
    ensures r.Success? && !EndsWithSlash(url.value) ==> r.value == url.value + "/"
  {
    match url
    case None => Failure(NullArgument(nullMessage))
    case Some(u) =>
      var normalized := NormalizeBase(u);
      assert ValidAbsoluteURI(u) ==> ValidAbsoluteURI(normalized) by {
        if ValidAbsoluteURI(u) {
          NormalizeKeepsValid(u);
        }
      }
      if ValidAbsoluteURI(normalized) then Success(normalized) else Failure(UriSyntax(normalized))
  }

  /** A no-break space, which java.net.URI refuses unescaped, makes the
      setter fail. */
  lemma StoreBaseRefusesSpaceChar()
    ensures StoreBase(Some("https://h/a\U{a0}"), "m") == Failure(UriSyntax("https://h/a\U{a0}/"))
  {
    var u := "https://h/a\U{a0}";
    var t := "https://h/a\U{a0}/";
    assert |u| == 12 && u[11] == '\U{a0}';
    assert u + "/" == t;
    assert NormalizeBase(u) == t;
    SpaceCharInvalid(t);
  }

  lemma SpaceCharInvalid(t: string)
    requires |t| > 11 && t[11] == '\U{a0}'
    ensures !ValidAbsoluteURI(t)
  {
    assert !IsUriChar(t[11]);
  }

  /** A '[' in the path, which java.net.URI refuses there, makes the setter
      fail. */
  lemma StoreBaseRefusesPathBracket()
    ensures StoreBase(Some("https://h/a["), "m") == Failure(UriSyntax("https://h/a[/"))
  {
    var u := "https://h/a[";
    var t := "https://h/a[/";
    assert |u| == 12 && u[11] == '[';
    assert u + "/" == t;
    assert NormalizeBase(u) == t;
    PathBracketInvalid(t);
  }

  lemma PathBracketInvalid(t: string)
    requires t == "https://h/a[/"
    ensures !ValidAbsoluteURI(t)
  {
    FindFromIs(t, 0, {':'}, 5);
    FindFromIs(t, 8, {'/', '?', '#'}, 9);
    FindFromIs(t, 9, {'?', '#'}, 13);
    assert t[11] == '[';
  }

  /** withKBaseAuthServerURL: replaces the authorization server URL only. */
  function WithKBaseAuthServerUrl(c: AuthConfig, authServer: Option<string>): (r: Result<AuthConfig, Error>)
    ensures authServer.None? ==> r == Failure(NullArgument("authServer cannot be null"))
    ensures r.Success? <==> authServer.Some? && ValidAbsoluteURI(NormalizeBase(authServer.value))
    ensures authServer.Some? && r.Failure? ==> r.error == UriSyntax(NormalizeBase(authServer.value))
    ensures authServer.Some? && ValidAbsoluteURI(authServer.value) ==> r.Success?
    ensures r.Success? ==> r.value.globusUrl == c.globusUrl && r.value.usersGroupId == c.usersGroupId
                           && r.value.token == c.token
    ensures r.Success? && EndsWithSlash(authServer.value) ==> r.value.authServerUrl == authServer.value
    ensures r.Success? && !EndsWithSlash(authServer.value) ==> r.value.authServerUrl == authServer.value + "/"
    ensures Valid(c) && r.Success? ==> Valid(r.value)
  {
    match StoreBase(authServer, "authServer cannot be null")
    case Failure(e) => Failure(e)
    case Success(u) => Success(c.(authServerUrl := u))
  }

  /** withGlobusAuthURL: replaces the Globus URL only. */
  function WithGlobusAuthUrl(c: AuthConfig, globusAuth: Option<string>): (r: Result<AuthConfig, Error>)
    ensures globusAuth.None? ==> r == Failure(NullArgument("globusAuth cannot be null"))
    ensures r.Success? <==> globusAuth.Some? && ValidAbsoluteURI(NormalizeBase(globusAuth.value))
    ensures globusAuth.Some? && r.Failure? ==> r.error == UriSyntax(NormalizeBase(globusAuth.value))
    ensures globusAuth.Some? && ValidAbsoluteURI(globusAuth.value) ==> r.Success?
    ensures r.Success? ==> r.value.authServerUrl == c.authServerUrl && r.value.usersGroupId == c.usersGroupId
                           && r.value.token == c.token
    ensures r.Success? && EndsWithSlash(globusAuth.value) ==> r.value.globusUrl == globusAuth.value
    ensures r.Success? && !EndsWithSlash(globusAuth.value) ==> r.value.globusUrl == globusAuth.value + "/"
    ensures Valid(c) && r.Success? ==> Valid(r.value)
  {
    match StoreBase(globusAuth, "globusAuth cannot be null")
    case Failure(e) => Failure(e)
    case Success(u) => Success(c.(globusUrl := u))
  }

  /** withKBaseUsersGroupID: replaces the group ID only. */
  function WithKBaseUsersGroupId(c: AuthConfig, groupId: Option<Uuid>): (r: Result<AuthConfig, Error>)
    ensures groupId.None? ==> r == Failure(NullArgument("groupID cannot be null"))
    ensures groupId.Some? ==> r.Success? && r.value.usersGroupId == groupId.value
    ensures r.Success? ==> r.value.authServerUrl == c.authServerUrl && r.value.globusUrl == c.globusUrl
                           && r.value.token == c.token
  {
    match groupId
    case None => Failure(NullArgument("groupID cannot be null"))
    case Some(g) => Success(c.(usersGroupId := g))
  }

  /** withRefreshingToken: replaces the token only. */
  function WithRefreshingToken(c: AuthConfig, token: Option<RefreshingToken>): (r: Result<AuthConfig, Error>)
    ensures token.None? ==> r == Failure(NullArgument("token cannot be null"))
    ensures token.Some? ==> r.Success? && r.value.token == token
    ensures r.Success? ==> r.value.authServerUrl == c.authServerUrl && r.value.globusUrl == c.globusUrl
                           && r.value.usersGroupId == c.usersGroupId
  {
    match token
    case None => Failure(NullArgument("token cannot be null"))
    case Some(_) => Success(c.(token := token))
  }

  // ---------------------------------------------------------------------
  // Getters

  /** getAuthServerURL: the stored base, a valid URL ending in '/'. */
  function GetAuthServerUrl(c: AuthConfig): (r: string)
    requires Valid(c)
    ensures ValidAbsoluteURI(r) && EndsWithSlash(r)
  {
    c.authServerUrl
  }

  /** getGlobusURL: the stored base, a valid URL ending in '/'. */
  function GetGlobusUrl(c: AuthConfig): (r: string)
    requires Valid(c)
    ensures ValidAbsoluteURI(r) && EndsWithSlash(r)
  {
    c.globusUrl
  }

  /** The getters of the default configuration report the default URLs. */
  lemma GetDefaultUrls()
    ensures GetAuthServerUrl(Default()) == "https://www.kbase.us/services/authorization/"
    ensures GetGlobusUrl(Default()) == "https://nexus.api.globusonline.org/"
  {
  }

  /** After withKBaseAuthServerURL(u) succeeds, getAuthServerURL reports u
      with a '/' appended when it lacked one, and getGlobusURL is unchanged;
      it succeeds whenever that string is a valid URI. */
  lemma GetAfterSetAuthServerUrl(c: AuthConfig, u: string)
    requires Valid(c)
    ensures WithKBaseAuthServerUrl(c, Some(u)).Success? <==> ValidAbsoluteURI(NormalizeBase(u))
    ensures WithKBaseAuthServerUrl(c, Some(u)).Success? ==>
      var d := WithKBaseAuthServerUrl(c, Some(u)).value;
      && GetAuthServerUrl(d) == (if EndsWithSlash(u) then u else u + "/")
      && GetGlobusUrl(d) == GetGlobusUrl(c)
  {
  }

  /** After withGlobusAuthURL(u) succeeds, getGlobusURL reports u with a '/'
      appended when it lacked one, and getAuthServerURL is unchanged. */
  lemma GetAfterSetGlobusUrl(c: AuthConfig, u: string)
    requires Valid(c)
    ensures WithGlobusAuthUrl(c, Some(u)).Success? <==> ValidAbsoluteURI(NormalizeBase(u))
    ensures WithGlobusAuthUrl(c, Some(u)).Success? ==>
      var d := WithGlobusAuthUrl(c, Some(u)).value;
      && GetGlobusUrl(d) == (if EndsWithSlash(u) then u else u + "/")
      && GetAuthServerUrl(d) == GetAuthServerUrl(c)
  {
  }

  // ---------------------------------------------------------------------
  // Derived URLs

  lemma LoginLocNormal()
    ensures NormalRef(LoginLoc)
  {
    var t := LoginLoc;
    forall i | 0 <= i < |t| ensures t[i] != '?' && t[i] != '#' && t[i] != ':' && t[i] != '.' {
      assert i in {0, 1, 2, 3, 4, 5, 6, 7, 8, 9, 10, 11, 12, 13};
    }
    forall i | 0 <= i < |t| - 1 ensures t[i] != '/' || t[i + 1] != '/' {
      assert i in {0, 1, 2, 3, 4, 5, 6, 7, 8, 9, 10, 11, 12};
    }
    NoDotCharNoDotSegment(t);
  }

  lemma GlobusUsersNormal()
    ensures NormalRef(GlobusUsers)
  {
    var t := GlobusUsers;
    forall i | 0 <= i < |t| ensures t[i] != '?' && t[i] != '#' && t[i] != ':' && t[i] != '.' {
      assert i in {0, 1, 2, 3, 4, 5};
    }
    forall i | 0 <= i < |t| - 1 ensures t[i] != '/' || t[i + 1] != '/' {
      assert i in {0, 1, 2, 3, 4};
    }
    NoDotCharNoDotSegment(t);
  }

  lemma GlobusGroupsNormal()
    ensures IsRelativePath(GlobusGroups) && NoDoubleSlash(GlobusGroups) && NoDotChar(GlobusGroups)
    ensures GlobusGroups[|GlobusGroups| - 1] == '/'
  {
    var t := GlobusGroups;
    forall i | 0 <= i < |t| ensures t[i] != '?' && t[i] != '#' && t[i] != ':' && t[i] != '.' {
      assert i in {0, 1, 2, 3, 4, 5, 6};
    }
    forall i | 0 <= i < |t| - 1 ensures t[i] != '/' || t[i + 1] != '/' {
      assert i in {0, 1, 2, 3, 4, 5};
    }
  }

  lemma GlobusGroupMembersNormal()
    ensures NoDelimiters(GlobusGroupMembers) && NoDoubleSlash(GlobusGroupMembers) && NoDotChar(GlobusGroupMembers)
  {
    var t := GlobusGroupMembers;
    forall i | 0 <= i < |t| ensures t[i] != '?' && t[i] != '#' && t[i] != ':' && t[i] != '.' {
      assert i in {0, 1, 2, 3, 4, 5, 6, 7, 8};
    }
    forall i | 0 <= i < |t| - 1 ensures t[i] != '/' || t[i + 1] != '/' {
      assert i in {0, 1, 2, 3, 4, 5, 6, 7};
    }
  }

  /** The canonical string of a UUID holds only hex digits and '-'. */
  lemma CanonicalNoDelimiters(s: string)
    requires IsCanonical(s)
    ensures NoDelimiters(s) && NoDotChar(s) && NoDoubleSlash(s)
    ensures forall i :: 0 <= i < |s| ==> s[i] != '/'
  {
    forall i | 0 <= i < |s| ensures s[i] != '?' && s[i] != '#' && s[i] != ':' && s[i] != '.' && s[i] != '/' {
      if i < 8 {
        assert s[i] == s[..8][i];
      } else if 8 < i < 13 {
        assert s[i] == s[9..13][i - 9];
      } else if 13 < i < 18 {
        assert s[i] == s[14..18][i - 14];
      } else if 18 < i < 23 {
        assert s[i] == s[19..23][i - 19];
      } else if 23 < i {
        assert s[i] == s[24..][i - 24];
      }
    }
  }

  /** A string ends with whatever was appended to it. */
  lemma EndsWithAppended(a: string, b: string)
    ensures (a + b)[|a + b| - |b|..] == b
  {
  }

  /** A suffix of a suffix of `r` is a suffix of `r`. */
  lemma SuffixOfSuffix(r: string, ref: string, t: string)
    requires |r| >= |ref| && r[|r| - |ref|..] == ref
    requires |ref| >= |t| && ref[|ref| - |t|..] == t
    ensures r[|r| - |t|..] == t
  {
    assert forall j :: |r| - |t| <= j < |r| ==> r[j] == ref[j - (|r| - |ref|)];
  }

  /** The reference resolved for the group members URL. */
  function GroupMembersRef(g: Uuid): (r: string)
    ensures NormalRef(r)
    ensures |r| >= |GlobusGroupMembers| && r[|r| - |GlobusGroupMembers|..] == GlobusGroupMembers
  {
    var id := ToString(g);
    GlobusGroupsNormal();
    GlobusGroupMembersNormal();
    CanonicalNoDelimiters(id);
    RelativePathJoin(GlobusGroups, id);
    RelativePathJoin(GlobusGroups + id, GlobusGroupMembers);
    NoDoubleSlashJoin(GlobusGroups, id);
    NoDoubleSlashJoin(GlobusGroups + id, GlobusGroupMembers);
    NoDotCharJoin(GlobusGroups, id);
    NoDotCharJoin(GlobusGroups + id, GlobusGroupMembers);
    NoDotCharNoDotSegment(GlobusGroups + id + GlobusGroupMembers);
    GlobusGroups + id + GlobusGroupMembers
  }

  /** The scheme and authority of a base followed by its normalised directory:
      what every URL resolved against the base starts with. */
  function ResolvedDirectory(base: string): (r: string)
    requires ValidAbsoluteURI(base)
    ensures PathOnly(base) && NormalBasePath(base) && EndsWithSlash(base) ==> r == base
  {
    var r := base[..PathStart(base)] + NormalizePath(BaseDirectory(base));
    assert PathOnly(base) && NormalBasePath(base) && EndsWithSlash(base) ==> r == base by {
      if PathOnly(base) && NormalBasePath(base) && EndsWithSlash(base) {
        BaseDirectoryNormal(base);
        NormalizeKeepsNormal(BaseDirectory(base));
        BaseDirectoryOfPathOnly(base);
      }
    }
    r
  }

  /** getAuthLoginURL: the login location resolved against the authorization server URL. */
  function AuthLoginUrl(c: AuthConfig): (r: string)
    requires Valid(c)
    ensures |r| > PathStart(c.authServerUrl) && r[..PathStart(c.authServerUrl)] == c.authServerUrl[..PathStart(c.authServerUrl)]
    ensures |r| >= |LoginLoc| && r[|r| - |LoginLoc|..] == LoginLoc
  {
    LoginLocNormal();
    ResolveNormalRef(c.authServerUrl, LoginLoc);
    Resolve(c.authServerUrl, LoginLoc)
  }

  /** getGlobusGroupMembersURL: "groups/<group ID>/members/" resolved against the Globus URL. */
  function GlobusGroupMembersUrl(c: AuthConfig): (r: string)
    requires Valid(c)
    ensures |r| > PathStart(c.globusUrl) && r[..PathStart(c.globusUrl)] == c.globusUrl[..PathStart(c.globusUrl)]
    ensures |r| >= |GlobusGroupMembers| && r[|r| - |GlobusGroupMembers|..] == GlobusGroupMembers
  {
    var ref := GroupMembersRef(c.usersGroupId);
    var r := Resolve(c.globusUrl, ref);
    assert r[|r| - |ref|..] == ref by {
      ResolveNormalRef(c.globusUrl, ref);
      EndsWithAppended(c.globusUrl[..PathStart(c.globusUrl)] + NormalizePath(BaseDirectory(c.globusUrl)), ref);
    }
    SuffixOfSuffix(r, ref, GlobusGroupMembers);
    r
  }

  /** getGlobusUsersURL: "users/" resolved against the Globus URL. */
  function GlobusUsersUrl(c: AuthConfig): (r: string)
    requires Valid(c)
    ensures |r| > PathStart(c.globusUrl) && r[..PathStart(c.globusUrl)] == c.globusUrl[..PathStart(c.globusUrl)]
    ensures |r| >= |GlobusUsers| && r[|r| - |GlobusUsers|..] == GlobusUsers
  {
    GlobusUsersNormal();
    ResolveNormalRef(c.globusUrl, GlobusUsers);
    Resolve(c.globusUrl, GlobusUsers)
  }

  /** The login URL is the resolved directory of the authorization server URL
      followed by "Sessions/Login"; for a path-only base with a normal path,
      that is the base followed by "Sessions/Login". */
  lemma AuthLoginUrlAppends(c: AuthConfig)
    requires Valid(c)
    ensures AuthLoginUrl(c) == ResolvedDirectory(c.authServerUrl) + LoginLoc
    ensures PathOnly(c.authServerUrl) && NormalBasePath(c.authServerUrl) ==> AuthLoginUrl(c) == c.authServerUrl + LoginLoc
  {
    LoginLocNormal();
    ResolveNormalRef(c.authServerUrl, LoginLoc);
  }

  /** A base whose path is "q x/../", as withKBaseAuthServerURL stores it for
      "https://h/q/x/..", gives the login URL under q: the segment x and its
      ".." are removed and everything before them stays. */
  lemma AuthLoginUrlDropsParent(c: AuthConfig, head: string, scheme: string, authority: string, q: string, x: string)
    requires Valid(c) && head == scheme + "://" + authority && c.authServerUrl == head + (q + x + "/../")
    requires IsScheme(scheme)
    requires forall j :: 0 <= j < |authority| ==> authority[j] != '/' && authority[j] != '?' && authority[j] != '#'
    requires NormalPath(q) && EndsWithSlash(q) && PathOnly(q)
    requires |x| > 0 && x != "." && x != ".." && forall j :: 0 <= j < |x| ==> x[j] != '/' && x[j] != '?' && x[j] != '#'
    ensures AuthLoginUrl(c) == head + q + LoginLoc
  {
    LoginLocNormal();
    ResolveUnderParent(c.authServerUrl, head, scheme, authority, q, x, LoginLoc);
  }

  /** The group members URL is the resolved directory of the Globus URL,
      "groups/", the group's canonical string and "/members/", with the group
      ID right after "groups/"; for a path-only base with a normal path the
      resolved directory is the base itself. */
  lemma GlobusGroupMembersUrlAppends(c: AuthConfig)
    requires Valid(c)
    ensures GlobusGroupMembersUrl(c)
         == ResolvedDirectory(c.globusUrl) + GlobusGroups + ToString(c.usersGroupId) + GlobusGroupMembers
    ensures var r := GlobusGroupMembersUrl(c); var k := |ResolvedDirectory(c.globusUrl)| + |GlobusGroups|;
      |r| == k + CanonicalLength + |GlobusGroupMembers| && r[k..k + CanonicalLength] == ToString(c.usersGroupId)
    ensures PathOnly(c.globusUrl) && NormalBasePath(c.globusUrl) ==>
      GlobusGroupMembersUrl(c) == c.globusUrl + GlobusGroups + ToString(c.usersGroupId) + GlobusGroupMembers
  {
    var g := ToString(c.usersGroupId);
    var dir := ResolvedDirectory(c.globusUrl);
    GroupMembersUrlParts(c);
    ThirdPart(dir, GlobusGroups, g, GlobusGroupMembers);
  }

  lemma GroupMembersUrlParts(c: AuthConfig)
    requires Valid(c)
    ensures GlobusGroupMembersUrl(c)
         == ResolvedDirectory(c.globusUrl) + GlobusGroups + ToString(c.usersGroupId) + GlobusGroupMembers
  {
    var ref := GroupMembersRef(c.usersGroupId);
    var dir, id := ResolvedDirectory(c.globusUrl), ToString(c.usersGroupId);
    ResolvedAppend(c.globusUrl, ref);
    assert ref == GlobusGroups + id + GlobusGroupMembers;
    Assoc4(dir, GlobusGroups, id, GlobusGroupMembers);
  }

  /** Four strings joined, the last three grouped first or not at all. */
  lemma Assoc4(a: string, b: string, m: string, d: string)
    ensures a + (b + m + d) == a + b + m + d
  {
  }

  /** Resolving a normal reference appends it to the resolved directory. */
  lemma ResolvedAppend(base: string, ref: string)
    requires ValidAbsoluteURI(base) && NormalRef(ref)
    ensures Resolve(base, ref) == ResolvedDirectory(base) + ref
  {
    ResolveNormalRef(base, ref);
  }

  /** The third of four concatenated strings sits right after the first two. */
  lemma ThirdPart(a: string, b: string, m: string, d: string)
    ensures var s := a + b + m + d; |s| == |a| + |b| + |m| + |d| && s[|a| + |b|..|a| + |b| + |m|] == m
  {
    var s := a + b + m + d;
    assert forall j :: |a| + |b| <= j < |a| + |b| + |m| ==> s[j] == m[j - |a| - |b|];
  }

  /** The users URL is the resolved directory of the Globus URL followed by
      "users/" (the base followed by "users/" for a path-only base with a
      normal path); it depends neither on the group ID nor on the token. */
  lemma GlobusUsersUrlAppends(c: AuthConfig, g: Uuid, t: Option<RefreshingToken>)
    requires Valid(c)
    ensures GlobusUsersUrl(c) == ResolvedDirectory(c.globusUrl) + GlobusUsers
    ensures PathOnly(c.globusUrl) && NormalBasePath(c.globusUrl) ==> GlobusUsersUrl(c) == c.globusUrl + GlobusUsers
    ensures GlobusUsersUrl(c.(usersGroupId := g, token := t)) == GlobusUsersUrl(c)
  {
    GlobusUsersNormal();
    ResolveNormalRef(c.globusUrl, GlobusUsers);
  }

  /** Under one Globus URL, distinct groups give distinct group members URLs. */
  lemma GlobusGroupMembersUrlInjective(c: AuthConfig, d: AuthConfig)
    requires Valid(c) && Valid(d) && c.globusUrl == d.globusUrl
    ensures GlobusGroupMembersUrl(c) == GlobusGroupMembersUrl(d) <==> c.usersGroupId == d.usersGroupId
  {
    GlobusGroupMembersUrlAppends(c);
    GlobusGroupMembersUrlAppends(d);
    ToStringInjective(c.usersGroupId, d.usersGroupId);
    if GlobusGroupMembersUrl(c) == GlobusGroupMembersUrl(d) {
      var k := |ResolvedDirectory(c.globusUrl)| + |GlobusGroups|;
      assert ToString(c.usersGroupId) == GlobusGroupMembersUrl(c)[k..k + CanonicalLength];
    }
  }

  lemma DefaultLoginString()
    ensures DefaultKBaseAuthServerUrl + LoginLoc == "https://www.kbase.us/services/authorization/Sessions/Login"
  {
  }

  lemma DefaultGroupMembersString()
    ensures DefaultGlobusAuthUrl + "groups/" + DefaultKBaseUserGroupId + "/members/"
         == "https://nexus.api.globusonline.org/groups/99d2a548-7218-11e2-adc0-12313d2d6e7f/members/"
  {
    GroupsString();
    GroupIdString();
    MembersString();
  }

  lemma GroupsString()
    ensures DefaultGlobusAuthUrl + "groups/" == "https://nexus.api.globusonline.org/groups/"
  {
  }

  lemma GroupIdString()
    ensures "https://nexus.api.globusonline.org/groups/" + DefaultKBaseUserGroupId
         == "https://nexus.api.globusonline.org/groups/99d2a548-7218-11e2-adc0-12313d2d6e7f"
  {
    GroupIdHalves();
    GroupIdFirstHalf();
    GroupIdSecondHalf();
  }

  lemma GroupIdHalves()
    ensures DefaultKBaseUserGroupId == "99d2a548-7218-11e2" + "-adc0-12313d2d6e7f"
  {
  }

  lemma GroupIdFirstHalf()
    ensures "https://nexus.api.globusonline.org/groups/" + "99d2a548-7218-11e2"
         == "https://nexus.api.globusonline.org/groups/99d2a548-7218-11e2"
  {
  }

  lemma GroupIdSecondHalf()
    ensures "https://nexus.api.globusonline.org/groups/99d2a548-7218-11e2" + "-adc0-12313d2d6e7f"
         == "https://nexus.api.globusonline.org/groups/99d2a548-7218-11e2-adc0-12313d2d6e7f"
  {
  }

  lemma MembersString()
    ensures "https://nexus.api.globusonline.org/groups/99d2a548-7218-11e2-adc0-12313d2d6e7f" + "/members/"
         == "https://nexus.api.globusonline.org/groups/99d2a548-7218-11e2-adc0-12313d2d6e7f/members/"
  {
  }

  lemma DefaultUsersString()
    ensures DefaultGlobusAuthUrl + GlobusUsers == "https://nexus.api.globusonline.org/users/"
  {
  }

  /** The login URL of the default configuration. */
  lemma DefaultAuthLoginUrl()
    ensures AuthLoginUrl(Default()) == "https://www.kbase.us/services/authorization/Sessions/Login"
  {
    var c := Default();
    AuthLoginUrlAppends(c);
    DefaultLoginString();
  }

  /** The group members URL of the default configuration. */
  lemma DefaultGlobusGroupMembersUrl()
    ensures GlobusGroupMembersUrl(Default())
         == "https://nexus.api.globusonline.org/groups/99d2a548-7218-11e2-adc0-12313d2d6e7f/members/"
  {
    var c := Default();
    GlobusGroupMembersUrlAppends(c);
    DefaultGroupMembersString();
  }

  /** The users URL of the default configuration. */
  lemma DefaultGlobusUsersUrl()
    ensures GlobusUsersUrl(Default()) == "https://nexus.api.globusonline.org/users/"
  {
    var c := Default();
    GlobusUsersUrlAppends(c, c.usersGroupId, c.token);
    DefaultUsersString();
  }

  // ---------------------------------------------------------------------
  // Chained setters

  /** One call of a setter, with its (possibly null) argument. */
  datatype Setter =
    | SetKBaseAuthServerUrl(authServer: Option<string>)
    | SetGlobusAuthUrl(globusAuth: Option<string>)
    | SetKBaseUsersGroupId(groupId: Option<Uuid>)
    | SetRefreshingToken(newToken: Option<RefreshingToken>)

  /** The field a setter writes. */
  datatype Field = AuthServerField | GlobusField | GroupField | TokenField

  function FieldOf(s: Setter): Field {
    match s
    case SetKBaseAuthServerUrl(_) => AuthServerField
    case SetGlobusAuthUrl(_) => GlobusField
    case SetKBaseUsersGroupId(_) => GroupField
    case SetRefreshingToken(_) => TokenField
  }

  /** True iff the setter's argument is not null. */
  predicate HasArgument(s: Setter) {
    match s
    case SetKBaseAuthServerUrl(u) => u.Some?
    case SetGlobusAuthUrl(u) => u.Some?
    case SetKBaseUsersGroupId(g) => g.Some?
    case SetRefreshingToken(t) => t.Some?
  }

  function Apply(c: AuthConfig, s: Setter): (r: Result<AuthConfig, Error>)
    ensures r.Success? ==> HasArgument(s)
    ensures Valid(c) && r.Success? ==> Valid(r.value)
  {
    match s
    case SetKBaseAuthServerUrl(u) => WithKBaseAuthServerUrl(c, u)
    case SetGlobusAuthUrl(u) => WithGlobusAuthUrl(c, u)
    case SetKBaseUsersGroupId(g) => WithKBaseUsersGroupId(c, g)
    case SetRefreshingToken(t) => WithRefreshingToken(c, t)
  }

  /** The object after a chain of setter calls, and the exception that ended
      the chain early, if any. */
  datatype Chained = Chained(config: AuthConfig, failure: Option<Error>)

  /** `c.with...(...).with...(...)...`: each call updates the object in place,
      so when one throws, the updates of the calls before it remain and the
      calls after it never run. */
  function Chain(c: AuthConfig, ss: seq<Setter>): (r: Chained)
    ensures Valid(c) ==> Valid(r.config)
    ensures r.failure.None? ==> forall i :: 0 <= i < |ss| ==> HasArgument(ss[i])
    decreases |ss|
  {
    if ss == [] then Chained(c, None)
    else
      match Apply(c, ss[0])
      case Failure(e) => Chained(c, Some(e))
      case Success(c') => Chain(c', ss[1..])
  }

  /** Running `xs` then `ys` is running `xs`, then, unless it failed, `ys`
      from where `xs` left off. */
  lemma {:induction false} ChainAppend(c: AuthConfig, xs: seq<Setter>, ys: seq<Setter>)
    ensures Chain(c, xs + ys)
         == (var r := Chain(c, xs); if r.failure.Some? then r else Chain(r.config, ys))
    decreases |xs|
  {
    if xs == [] {
      assert xs + ys == ys;
    } else {
      assert (xs + ys)[0] == xs[0];
      assert (xs + ys)[1..] == xs[1..] + ys;
      match Apply(c, xs[0])
      case Failure(_) =>
      case Success(c') => ChainAppend(c', xs[1..], ys);
    }
  }

  /** A setter that fails after a successful prefix ends the chain: the
      object keeps the prefix's updates and nothing after it runs. */
  lemma ChainStopsAtFailure(c: AuthConfig, xs: seq<Setter>, s: Setter, ys: seq<Setter>)
    requires Chain(c, xs).failure.None?
    requires Apply(Chain(c, xs).config, s).Failure?
    ensures Chain(c, xs + [s] + ys)
         == Chained(Chain(c, xs).config, Some(Apply(Chain(c, xs).config, s).error))
  {
    ChainAppend(c, xs + [s], ys);
    ChainAppend(c, xs, [s]);
  }

  /** The last setter in `ss` that writes field `f`, if any. */
  function LastFor(ss: seq<Setter>, f: Field): (r: Option<Setter>)
    ensures r.Some? ==> r.value in ss && FieldOf(r.value) == f
    ensures r.None? ==> forall i :: 0 <= i < |ss| ==> FieldOf(ss[i]) != f
  {
    if ss == [] then None
    else if FieldOf(ss[|ss| - 1]) == f then Some(ss[|ss| - 1])
    else LastFor(ss[..|ss| - 1], f)
  }

  /** The value the last setter of each field leaves in it, or the starting
      value when no setter writes the field. */
  ghost predicate LastWriteWins(c: AuthConfig, ss: seq<Setter>, d: AuthConfig) {
    && d.authServerUrl == (match LastFor(ss, AuthServerField)
                           case Some(SetKBaseAuthServerUrl(Some(u))) => NormalizeBase(u)
                           case _ => c.authServerUrl)
    && d.globusUrl == (match LastFor(ss, GlobusField)
                       case Some(SetGlobusAuthUrl(Some(u))) => NormalizeBase(u)
                       case _ => c.globusUrl)
    && d.usersGroupId == (match LastFor(ss, GroupField)
                          case Some(SetKBaseUsersGroupId(Some(g))) => g
                          case _ => c.usersGroupId)
    && d.token == (match LastFor(ss, TokenField)
                   case Some(SetRefreshingToken(Some(t))) => Some(t)
                   case _ => c.token)
  }

  /** Appending one setter makes it the last writer of its own field and
      leaves the last writer of every other field as it was. */
  lemma LastForStep(init: seq<Setter>, last: Setter, f: Field)
    ensures LastFor(init + [last], f) == if FieldOf(last) == f then Some(last) else LastFor(init, f)
  {
    var ss := init + [last];
    assert ss[|ss| - 1] == last;
    assert ss[..|ss| - 1] == init;
  }

  /** One more successful setter keeps the last-write-wins description. */
  lemma LastWriteWinsStep(c: AuthConfig, init: seq<Setter>, last: Setter, m: AuthConfig, d: AuthConfig)
    requires LastWriteWins(c, init, m)
    requires Apply(m, last) == Success(d)
    ensures LastWriteWins(c, init + [last], d)
  {
    LastForStep(init, last, AuthServerField);
    LastForStep(init, last, GlobusField);
    LastForStep(init, last, GroupField);
    LastForStep(init, last, TokenField);
    match last
    case SetKBaseAuthServerUrl(u) =>
      assert d == m.(authServerUrl := NormalizeBase(u.value));
    case SetGlobusAuthUrl(u) =>
      assert d == m.(globusUrl := NormalizeBase(u.value));
    case SetKBaseUsersGroupId(g) =>
      assert d == m.(usersGroupId := g.value);
    case SetRefreshingToken(t) =>
      assert d == m.(token := t);
  }

  /** A chain that runs to the end applies every update: each field holds what
      the last setter of that field stored, and fields no setter touched keep
      their values. */
  lemma {:induction false} ChainLastWriteWins(c: AuthConfig, ss: seq<Setter>)
    requires Chain(c, ss).failure.None?
    ensures LastWriteWins(c, ss, Chain(c, ss).config)
    decreases |ss|
  {
    if ss != [] {
      var init, last := ss[..|ss| - 1], ss[|ss| - 1];
      assert ss == init + [last];
      ChainAppend(c, init, [last]);
      var m := Chain(c, init);
      assert m.failure.None?;
      ChainLastWriteWins(c, init);
      assert [last][1..] == [];
      LastWriteWinsStep(c, init, last, m.config, Chain(c, ss).config);
    }
  }

  /** The message of the NullPointerException a setter throws for a null argument. */
  function NullMessage(s: Setter): string {
    match s
    case SetKBaseAuthServerUrl(_) => "authServer cannot be null"
    case SetGlobusAuthUrl(_) => "globusAuth cannot be null"
    case SetKBaseUsersGroupId(_) => "groupID cannot be null"
    case SetRefreshingToken(_) => "token cannot be null"
  }

  /** A null argument ends the chain with a NullPointerException, before its
      setter assigns anything: every field keeps the value it had. */
  lemma NullArgumentEndsChain(c: AuthConfig, xs: seq<Setter>, s: Setter, ys: seq<Setter>)
    requires Chain(c, xs).failure.None? && !HasArgument(s)
    ensures Chain(c, xs + [s] + ys) == Chained(Chain(c, xs).config, Some(NullArgument(NullMessage(s))))
  {
    assert Apply(Chain(c, xs).config, s) == Failure(NullArgument(NullMessage(s)));
    ChainStopsAtFailure(c, xs, s, ys);
  }

  /** Every configuration reached from the default by setter calls keeps both
      base URLs valid and ending in '/'. */
  lemma ReachableValid(ss: seq<Setter>)
    ensures Valid(Chain(Default(), ss).config)
  {
  }

  /** Setting a base URL a second time with the same argument changes nothing:
      the stored, normalised URL is stored again as it is. */
  lemma SetBaseUrlIdempotent(c: AuthConfig, u: Option<string>)
    ensures WithKBaseAuthServerUrl(c, u).Success? ==>
      var d := WithKBaseAuthServerUrl(c, u).value; WithKBaseAuthServerUrl(d, u) == Success(d)
    ensures WithGlobusAuthUrl(c, u).Success? ==>
      var d := WithGlobusAuthUrl(c, u).value; WithGlobusAuthUrl(d, u) == Success(d)
  {
  }
}
