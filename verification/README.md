# KBase auth client configuration, modelled in Dafny

`AuthConfig` is the configuration value of the KBase auth client. It holds
four things:

- the base URL of the KBase authorization server;
- the base URL of Globus Online;
- the UUID of the Globus group whose members are the KBase users;
- an optional refreshing token for Globus queries.

The no-argument constructor fills in the production defaults. Four chainable
`with…` setters replace one field each, and every setter rejects `null`. The
two URL setters also append a `/` to a URL that lacks one. Three getters
derive endpoint URLs by resolving a fixed relative reference against a base
URL:

- `Sessions/Login` against the authorization server;
- `groups/<uuid>/members/` against Globus;
- `users/` against Globus.

The model is functional. A configuration is an immutable `AuthConfig`
record. Each setter is a pure function that returns `Success(updated)` or
`Failure(error)`. `null` is `None`. The Java exceptions become `Error`
values: `NullArgument` with the exception's message, and `UriSyntax`.
Chained calls on the mutable Java object become `Chain`, which returns the
object as left by the calls that succeeded, plus the exception that ended
the chain.

Files:

- `wrappers.dfy`: `Option` and `Result`.
- `uuids.dfy`: `java.util.UUID` as two 64-bit halves. It covers the
  canonical 8-4-4-4-12 lower-case hex form that `UUID.toString` writes
  (section 3 of RFC 4122), and a reader for exactly that form. Both round
  trips are proved.
- `uris.dfy`: `ValidAbsoluteURI`, trailing-slash normalisation, and the
  resolution of a relative-path reference against a base, done the way
  `java.net.URI.resolve` of JDK 21 does it:
  - the reference is appended to the base path up to its last `/`;
  - the merged path is normalised: runs of `/` collapse to one, and `.`
    segments go. A `..` removes the nearest kept segment unless that one is
    itself `..`. A `..` with nothing before it is kept. Here `java.net.URI`
    follows RFC 2396, not section 5.2.4 of RFC 3986, which would drop it;
  - the base's query and fragment are dropped.

  It proves these facts:
  - a normal path, one with no `.`, `..` or empty segment, is left as it is;
  - a normal reference is appended unchanged to the normalised directory;
  - resolution appends the reference to a path-only normal base exactly
    when the base ends in `/`.
- `auth_config.dfy`: the record, the defaults, the setters, the getters,
  the derived URLs and setter chains.

## Model

| member | source | states |
|---|---|---|
| `AuthConfigs.Default` | java-libs/src/us/kbase/auth/AuthConfig.java:40-50 | The default configuration satisfies the invariant: both base URLs are valid and end in `/`. Both are path-only, and both paths are normal, so normalisation leaves them alone. It has no token. Its group's canonical string is `99d2a548-7218-11e2-adc0-12313d2d6e7f`. |
| `AuthConfigs.DefaultUsersGroupId` | java-libs/src/us/kbase/auth/AuthConfig.java:48 | The UUID read from the default group ID string is written back as that same string. |
| `AuthConfigs.DefaultAuthLoginUrl` | java-libs/src/us/kbase/auth/AuthConfig.java:18-26 | The default login URL is exactly `https://www.kbase.us/services/authorization/Sessions/Login`. |
| `AuthConfigs.DefaultGlobusGroupMembersUrl` | java-libs/src/us/kbase/auth/AuthConfig.java:20-29 | The default group-members URL is exactly `https://nexus.api.globusonline.org/groups/99d2a548-7218-11e2-adc0-12313d2d6e7f/members/`. |
| `AuthConfigs.DefaultGlobusUsersUrl` | java-libs/src/us/kbase/auth/AuthConfig.java:20-28 | The default users URL is exactly `https://nexus.api.globusonline.org/users/`. |
| `AuthConfigs.StoreBaseRefusesSpaceChar` | java-libs/src/us/kbase/auth/AuthConfig.java:63-70 | A URL holding a no-break space (U+00A0) in its path is refused with `UriSyntax` of the slash-terminated string. |
| `AuthConfigs.StoreBaseRefusesPathBracket` | java-libs/src/us/kbase/auth/AuthConfig.java:63-70 | A URL holding `[` in its path is refused with `UriSyntax` of the slash-terminated string. |
| `AuthConfigs.StoreBase` | java-libs/src/us/kbase/auth/AuthConfig.java:60-70 | A null URL fails with the given message. Otherwise the call succeeds exactly when the URL, with `/` appended if it lacks one, is a valid URI. When it fails, the error is `UriSyntax` carrying that string. A valid URL is always accepted. What is stored is the URL itself when it ends in `/`, and the URL plus `/` otherwise. |
| `AuthConfigs.WithKBaseAuthServerUrl` | java-libs/src/us/kbase/auth/AuthConfig.java:58-72 | `null` fails with "authServer cannot be null". Otherwise it succeeds exactly when the slash-terminated URL is a valid URI. On failure the error is `UriSyntax` of that string. On success the stored URL is the argument, or the argument plus `/`. The Globus URL, group and token are unchanged, and the invariant is preserved. |
| `AuthConfigs.WithGlobusAuthUrl` | java-libs/src/us/kbase/auth/AuthConfig.java:80-94 | `null` fails with "globusAuth cannot be null". Otherwise it succeeds exactly when the slash-terminated URL is a valid URI. On failure the error is `UriSyntax` of that string. On success the stored URL is the argument, or the argument plus `/`. The other three fields are unchanged, and the invariant is preserved. |
| `AuthConfigs.WithKBaseUsersGroupId` | java-libs/src/us/kbase/auth/AuthConfig.java:100-106 | `null` fails with "groupID cannot be null". Any other UUID is stored as given. The other three fields are unchanged. |
| `AuthConfigs.WithRefreshingToken` | java-libs/src/us/kbase/auth/AuthConfig.java:116-122 | `null` fails with "token cannot be null". Any other token is stored, and the getter then reports it. The other three fields are unchanged. |
| `AuthConfigs.GetAuthServerUrl` | java-libs/src/us/kbase/auth/AuthConfig.java:127-133 | On a valid configuration it returns a valid absolute URL ending in `/`. |
| `AuthConfigs.GetGlobusUrl` | java-libs/src/us/kbase/auth/AuthConfig.java:138-144 | On a valid configuration it returns a valid absolute URL ending in `/`. |
| `AuthConfigs.GetDefaultUrls` | java-libs/src/us/kbase/auth/AuthConfig.java:127-144 | The getters of the default configuration report `https://www.kbase.us/services/authorization/` and `https://nexus.api.globusonline.org/`. |
| `AuthConfigs.GetAfterSetAuthServerUrl` | java-libs/src/us/kbase/auth/AuthConfig.java:58-72 | Setting the auth server URL `u` succeeds exactly when `u`, with `/` appended if it lacks one, is a valid URI. After success, `getAuthServerURL` reports that string and `getGlobusURL` is unchanged. |
| `AuthConfigs.GetAfterSetGlobusUrl` | java-libs/src/us/kbase/auth/AuthConfig.java:80-94 | Setting the Globus URL `u` succeeds exactly when `u`, with `/` appended if it lacks one, is a valid URI. After success, `getGlobusURL` reports that string and `getAuthServerURL` is unchanged. |
| `AuthConfigs.AuthLoginUrl` | java-libs/src/us/kbase/auth/AuthConfig.java:164-170 | The login URL keeps the scheme and authority of the auth base and ends in `Sessions/Login`. |
| `AuthConfigs.GlobusGroupMembersUrl` | java-libs/src/us/kbase/auth/AuthConfig.java:180-187 | The group-members URL keeps the scheme and authority of the Globus base and ends in `/members/`. |
| `AuthConfigs.GlobusUsersUrl` | java-libs/src/us/kbase/auth/AuthConfig.java:194-200 | The users URL keeps the scheme and authority of the Globus base and ends in `users/`. |
| `AuthConfigs.AuthLoginUrlAppends` | java-libs/src/us/kbase/auth/AuthConfig.java:164-166 | The login URL is the base's scheme and authority, then its normalised directory, then `Sessions/Login`. For a path-only base with a normal path, that is the base followed by `Sessions/Login`. |
| `AuthConfigs.AuthLoginUrlDropsParent` | java-libs/src/us/kbase/auth/AuthConfig.java:164-166 | An auth base whose path is a normal directory `q` followed by `x/../`, as stored for `https://h/q/x/..`, gives the login URL with path `q` followed by `Sessions/Login`: the segment and its `..` are removed. |
| `AuthConfigs.GlobusGroupMembersUrlAppends` | java-libs/src/us/kbase/auth/AuthConfig.java:180-183 | The URL is the Globus base's scheme and authority and normalised directory, then `groups/`, the group's 36-character string, and `/members/`. The group string sits right after `groups/`. For a path-only base with a normal path, the URL starts with the base itself. |
| `AuthConfigs.GlobusUsersUrlAppends` | java-libs/src/us/kbase/auth/AuthConfig.java:194-196 | The users URL is the Globus base's scheme and authority and normalised directory, followed by `users/`. For a path-only base with a normal path, that is the base followed by `users/`. It does not depend on the group ID or the token. |
| `AuthConfigs.GlobusGroupMembersUrlInjective` | java-libs/src/us/kbase/auth/AuthConfig.java:180-183 | For one Globus base, two configurations have the same group-members URL if and only if they have the same group. |
| `AuthConfigs.Chain` | java-libs/src/us/kbase/auth/AuthConfig.java:58-122 | Any chain of setter calls keeps the invariant. A chain that ends without an exception had no null argument. |
| `AuthConfigs.ChainAppend` | java-libs/src/us/kbase/auth/AuthConfig.java:58-122 | Running two chains one after the other equals running their concatenation, and an exception in the first stops everything. |
| `AuthConfigs.ChainStopsAtFailure` | java-libs/src/us/kbase/auth/AuthConfig.java:58-122 | When a setter throws, the object keeps the earlier updates, and no later setter runs. |
| `AuthConfigs.NullArgumentEndsChain` | java-libs/src/us/kbase/auth/AuthConfig.java:58-122 | A null argument ends the chain with that setter's message, and every field keeps its value. |
| `AuthConfigs.ChainLastWriteWins` | java-libs/src/us/kbase/auth/AuthConfig.java:58-122 | After a chain that raised nothing, each field holds what the last setter of that field stored. Fields that no setter touched keep their previous values. |
| `AuthConfigs.ReachableValid` | java-libs/src/us/kbase/auth/AuthConfig.java:18-94 | From the default, both stored base URLs stay valid and end in `/` after any sequence of setter calls. |
| `AuthConfigs.SetBaseUrlIdempotent` | java-libs/src/us/kbase/auth/AuthConfig.java:63-70 | Setting the same base URL twice has the same effect as setting it once. |
| `Uris.NormalizeBase` | java-libs/src/us/kbase/auth/AuthConfig.java:63-69 | The normalised URL ends in `/`. It starts with the given string and is at most one character longer. |
| `Uris.NormalizeIdempotent` | java-libs/src/us/kbase/auth/AuthConfig.java:63-69 | Normalising twice gives the same result as normalising once. |
| `Uris.NormalizeShortest` | java-libs/src/us/kbase/auth/AuthConfig.java:63-69 | The normalised URL is the shortest extension of the input that ends in `/`. |
| `Uris.NormalizeKeepsValid` | java-libs/src/us/kbase/auth/AuthConfig.java:63-70 | Appending `/` to a valid absolute URI leaves it valid, so a valid URL never makes a URL setter fail. |
| `Uris.Segments` | java-libs/src/us/kbase/auth/AuthConfig.java:166 | Splitting a path gives only non-empty segments: a run of `/` separates two segments and makes no empty segment of its own. |
| `Uris.SegmentsHaveNoSlash` | java-libs/src/us/kbase/auth/AuthConfig.java:166 | No segment of a split path contains `/`: every `/` of the path is a separator. |
| `Uris.RemoveDots` | java-libs/src/us/kbase/auth/AuthConfig.java:166 | After dot removal no `.` segment is left, and a `..` segment survives only at the front, where nothing precedes it to remove. The result is never longer than the input. |
| `Uris.RemoveDotsDropsDot` | java-libs/src/us/kbase/auth/AuthConfig.java:166 | A trailing `.` segment is dropped: the result is that of the segments before it. |
| `Uris.RemoveDotsKeepsOrdinary` | java-libs/src/us/kbase/auth/AuthConfig.java:166 | A trailing ordinary segment, neither `.` nor `..`, is kept after the result of the segments before it. |
| `Uris.RemoveDotsParentCancels` | java-libs/src/us/kbase/auth/AuthConfig.java:166 | An ordinary segment followed by `..` cancels out: the result is that of the segments before the pair, whatever they are. |
| `Uris.RemoveDotsKeepsParent` | java-libs/src/us/kbase/auth/AuthConfig.java:166 | When the segments so far reduce to nothing or to a list ending in `..`, a further `..` is kept at the end. |
| `Uris.NormalizePath` | java-libs/src/us/kbase/auth/AuthConfig.java:166 | The normalised path starts with `/` and is never longer than the path it came from. |
| `Uris.NormalizeKeepsNormal` | java-libs/src/us/kbase/auth/AuthConfig.java:166 | Path normalisation leaves a normal path unchanged. A normal path starts with `/` and has no `.`, `..` or empty segment. |
| `Uris.NormalizeAppend` | java-libs/src/us/kbase/auth/AuthConfig.java:166 | Normalising a directory followed by a normal reference normalises the directory and keeps the reference unchanged after it. |
| `Uris.NormalizeParentCancels` | java-libs/src/us/kbase/auth/AuthConfig.java:166 | For a directory `p` (starting and ending in `/`), an ordinary segment `x` and a normal reference `ref`, `p` followed by `x/../ref` normalises to the normalised `p` followed by `ref`. |
| `Uris.BaseDirectory` | java-libs/src/us/kbase/auth/AuthConfig.java:166 | The merge directory starts and ends with `/`. For an empty base path it is `/`. Otherwise it is a prefix of the base path with no `/` in the rest of the path, so it runs up to the last `/`. |
| `Uris.Resolve` | java-libs/src/us/kbase/auth/AuthConfig.java:166 | Resolution keeps the base's scheme and authority, and the resolved path starts with `/`. |
| `Uris.ResolveNormalRef` | java-libs/src/us/kbase/auth/AuthConfig.java:166 | Resolving a normal reference gives the base's scheme and authority, then the normalised base directory, then the reference unchanged. |
| `Uris.ResolveAppendsIff` | java-libs/src/us/kbase/auth/AuthConfig.java:164-166 | Take a valid path-only base with an empty or normal path, and a normal reference. Resolving the reference always gives the scheme and authority, then the base directory up to the last `/`, then the reference. So it gives base plus reference if and only if the base ends in `/`; otherwise the last path segment is replaced. |
| `Uris.ResolveUnderParent` | java-libs/src/us/kbase/auth/AuthConfig.java:166 | Against a base whose path is `q` followed by `x/../`, where `q` is a normal directory and `x` an ordinary segment, a normal reference resolves to the scheme and authority, then `q`, then the reference. |
| `Uuids.ToString` | java-libs/src/us/kbase/auth/AuthConfig.java:182-183 | The string form of a UUID is canonical: 36 characters, `-` at positions 8, 13, 18 and 23, and lower-case hex digits everywhere else. |
| `Uuids.Parse` | java-libs/src/us/kbase/auth/AuthConfig.java:48 | The reader accepts exactly the canonical strings. |
| `Uuids.ParseToString` | java-libs/src/us/kbase/auth/AuthConfig.java:182-183 | Reading the string form of a UUID gives back that UUID. |
| `Uuids.ToStringParse` | java-libs/src/us/kbase/auth/AuthConfig.java:48 | Every canonical string is the string form of the UUID read from it. |
| `Uuids.ToStringInjective` | java-libs/src/us/kbase/auth/AuthConfig.java:182-183 | Two UUIDs have the same string form if and only if they are equal. |

## Left out

- `Uris.ValidAbsoluteURI` approximates `java.net.URI` syntax. It accepts `scheme "://" authority [path] [?query] [#fragment]` with a non-empty authority. Anywhere in the string it refuses ASCII controls, space, DEL, `"`, `<`, `>`, `\`, `^`, `` ` ``, `{`, `|` and `}`. Above the ASCII range it refuses the ISO control characters and the Unicode space characters, as `URI` does. It refuses `[` and `]` in the path. It does not check `%`-escapes, the grammar of hosts and ports (including bracketed IPv6 literals), or a second `#` in the fragment. So the model may accept some strings that `URI` refuses. It also fails with `UriSyntax` on URLs without an authority (`file:/x`, `mailto:a@b`), which `toURI` accepts.
- `AuthConfigs.AuthLoginUrlAppends`: the form "base followed by `Sessions/Login`" is stated only for a path-only base whose path is normal. For any other base the lemma states the general form: scheme and authority, normalised directory, then the reference. The setters append `/` to the whole string, as the Java code does, so a stored base may carry a query or fragment that ends in `/`. `Resolve` drops both.
- `AuthConfigs.GlobusGroupMembersUrlAppends`: the form "base, `groups/`, group, `/members/`" is stated only for a path-only base whose path is normal. For any other base the lemma states the general form, with the normalised directory in place of the base.
- `AuthConfigs.GlobusUsersUrlAppends`: the form "base followed by `users/`" is stated only for a path-only base whose path is normal. For any other base the lemma states the general form, with the normalised directory in place of the base.
- `Uris.Resolve` copies the base's scheme and authority verbatim. `java.net.URI` rebuilds the authority from its parsed user information, host and port. So a form like an empty port (`https://h:/`) loses its `:` in Java but keeps it in the model.
- `Uris.Resolve` follows JDK 21, whose `resolvePath` puts a `/` between an empty base path and the reference. Older JDKs glued the reference straight onto the authority.
- Opaque base URIs are not modelled. For them, `URI.resolve` returns the reference itself and `toURL` then throws `IllegalArgumentException`. The model's `ValidAbsoluteURI` excludes such bases.
- The "can't happen" branches are not modelled: the `RuntimeException` thrown when the default URLs fail to parse, the `MalformedURLException` on the appended URL, and the `toURL()` conversions in the getters. The proved validity of the defaults stands in for the first. The others are foreign library calls that do nothing observable on valid input.
- `RefreshingToken` is an opaque handle. Its refresh logic and contents belong to another class.
- `Uuids.Parse` models `UUID.fromString` only on the canonical lower-case form, which is the form of the default constant. `fromString` also accepts upper case and shortened groups.
- A Java `long` is signed. `Uuid` holds each half as its unsigned 64-bit pattern. `toString` masks the bits, so the string form is the same.
- Aliasing through `return this` and sharing between threads are not modelled. Every setter returns a new value instead.
- `getKbaseUsersGroupID` and `getToken` return a field as it is, and are the datatype's field accessors `usersGroupId` and `token`.
