# KLLDAP in Dafny

KLLDAP is a lightweight directory server: users and groups live in SQL tables, are shown over LDAP
under distinguished names (DNs) built from nested organisational units (OUs), and are administered
over HTTP with JSON web tokens. This project models its hard parts and proves what they promise.

| part | files |
|---|---|
| Distinguished names and OUs: parsing, printing, the OU codec, the OU tree, classification, and the agreement of add, search and bind | `Text`, `Dn`, `Ou`, `Classify`, `Directory`, `Members` |
| Substring filters compiled to SQL LIKE | `Substring` |
| Case-insensitive names | `CaseOrder` |
| Permissions and restricted listings | `Access` |
| Tokens: the three tables, the in-memory blacklist, the cleaner, restarts and a clock, with the SQL statements of concurrent requests interleaved in any order | `TokenTables`, `AuthRuns`, `TokenOrigins`, `RowLifetimes`, `LogoutSafety`, `BlacklistCache`, `RefreshTokens`, `ResetTokens`, `AuthService` |
| The LDAP session | `LdapSession` |
| Search entries | `SearchEntry` |
| The migration tool | `Migration`, `MigrationRuns` |
| Startup key gate and environment variable names | `Startup`, `ConfigKeys` |

Code that changes state is modelled in place: `SqlBackend`, `AppState`, `LdapHandler`, `GraphQLClient`,
`KeyCollector` and `Metadata` are classes, and the source's loops are loops. Their methods are proved
against specification functions, and the main results are about those functions and about whole runs.

## What the proofs found

Where a promise does not hold of the code on all inputs, the lemma states exactly when it does.

- A user's own entry DN names that user exactly when the base DN has no `ou` RDN, because the
  classifier counts all `ou` RDNs (`UserDnClassifies`). Under a base with `ou` RDNs as many RDNs of any
  other kind pass instead (`ClassifyExact`, `TestsShapeIff`, `JunkIsAccepted`).
- The walk through the OU tree ends exactly if no allowed OU is the empty string (`WalkEndsIff`).
- A user added over LDAP is shown under the DN used for the Add exactly when the base DN has no `ou` RDN
  and the `ou` values are non-empty and free of backslashes (`AddAndSearchAgree`, and for groups
  `GroupAddAndSearchAgree`); with the shown DN they can bind exactly when the base has no `ou` RDN and
  the stored OU is in normal form (`AddedUserBinds`). Each condition fails for some users
  (`SlashIsShownElsewhere`, `BlankComponentCannotBind`, `JunkUserCannotBind`). The container test accepts
  DNs that are no allowed OU's chain, all of them with such an `ou` value (`ContainerExact`,
  `ContainerAcceptsSlash`).
- A substring filter keeps its meaning exactly when no part holds a character that is special to the
  database's LIKE; without an escaping backslash that still leaves `%` and `_` (`MeaningPreservedIff`).
- Logging out selects a user's valid tokens and then updates all of the user's rows. A token registered
  in between is blacklisted on disk but not in memory, and no later logout repairs that: the token is
  accepted until it expires or the server restarts (`CoversRunIff`, `ForgottenIsAccepted`,
  `RaceLeavesTokenAccepted`). Without such overtaking the memory agrees
  with the database (`CacheAgrees`). Tokens that were there when the logout selected are rejected in
  every case (`LogoutSafe`).
- A refresh token past its expiry goes on being accepted until the cleaner runs (`RefreshAcceptedIff`,
  `ExpiredTokenAccepted`).
- A reset token is redeemed at most once exactly if no look-up finds a token another request has found
  and no delete fails on a token that can still be looked up (`RedeemedAtMostOnce`, `SingleUseIff`,
  `CarefulStepIff`); runs from the start break either (`OverlapHappens`, `FailedDeleteHappens`).
- The ten minutes bound the look-up of a reset token, not its redemption (`RedeemedInTime`,
  `LateRedemptionHappens`).
- Equal names hash equally exactly when their word-final capital sigmas fall on the same places
  (`EqualNamesHashEqually`, `SigmaBreaksHashing`).
- The LDAP search passes no user filter to the member values, so a regular user sees all members of a
  group they belong to; narrowing happens exactly when they are the only member (`SearchNarrowsIff`,
  `GroupOfTwo`).
- The memberOf value for a group differs from the group's entry DN exactly when the `ou` attribute is a
  list headed by something other than `groups` (`MemberOfAgrees`, `ListValuedOuDiffers`).
- A second run of the migration tool finds nothing to do exactly when the LDAP user ids are in lower
  case (`RerunPostsNothingIff`, `MixedCaseIsPostedAgain`), and memberships of mixed-case ids are left out
  (`RunBringsEverythingOver`, `MixedCaseIsLeftOut`).
- A Bind answered Success leaves the connection unbound exactly when the group look-up fails, even one
  that was bound before (`BoundAfterBindIff`, `BobIsNobody`).

Where comments and code disagree the model follows the code. `crates/ldap/src/dn.rs` describes the OU
string as the `ou` RDNs in order, but the code reverses them; it speaks of the primary OU as the leaf,
but the code takes the outermost one.

## Model

| member | source | states |
|---|---|---|
| Dn.ParseRdnsOutcome | crates/ldap/src/dn.rs:131-167 | a DN is accepted exactly when each piece between commas has one `=`, and otherwise the first piece that has not decides the error |
| Dn.ParseRdnError | crates/ldap/src/dn.rs:136-147 | a piece without `=` misses its value, and one with several is rejected with its first three parts |
| Dn.PrintedDnParsesBack | crates/ldap/src/dn.rs:155-167 | the DNs that survive printing and parsing are exactly the non-empty normal ones: lower case, trimmed, free of `,` and `=` |
| Dn.ParseReachesNormalForm | crates/ldap/src/dn.rs:155-167 | whatever parses is in normal form, prints and parses back to itself, and parses the same in lower case |
| Dn.ParsesToIff | crates/ldap/src/dn.rs:155-167 | the texts that parse to a DN are exactly its paddings with white space around types and values, in any letter case |
| Dn.PaddedDnParses | crates/ldap/src/dn.rs:160 | any padding of any normal DN, in any case, parses to that DN |
| Dn.PaddedRdnParses | crates/ldap/src/dn.rs:160 | white space before and after the type and the value of an RDN is ignored |
| Text.IsSpaceExact | crates/ldap/src/dn.rs:160 | the white space that trimming removes, character by character: the Unicode property |
| Text.TrimPadded | crates/ldap/src/dn.rs:160 | trimming removes white space around a trimmed string |
| Text.TrimTakes | crates/ldap/src/dn.rs:160 | trimming removes nothing but white space at the two ends |
| Text.AlphabetLowered | crates/ldap/src/dn.rs:156 | which letter lower-casing makes of which |
| Dn.PrintDnInjective | crates/ldap/src/core/utils.rs:28-29 | printing is injective on normal DNs |
| Ou.InternalOuToRdnChain | crates/ldap/src/dn.rs:59-72 | the reverse loop with its blank test builds the chain of the trimmed non-empty components, innermost first |
| Ou.ComponentsOfPadded | crates/ldap/src/dn.rs:59-72 | white space around the components of an OU string is ignored and blank components are dropped |
| Ou.OuRoundTrip | crates/ldap/src/dn.rs:59-87 | OU string to chain and back is the normal form; normalising is idempotent, keeps the chain, and fixes exactly the OUs already normal |
| Ou.ChainRoundTrip | crates/ldap/src/dn.rs:59-87 | chain to OU string and back is the identity exactly on chains of clean values |
| Ou.DirectChildIsOneMore | crates/ldap/src/dn.rs:39-56 | the prefix test on strings holds exactly when the entry's path is the parent's plus one component |
| Ou.DirectChildrenExact | crates/ldap/src/dn.rs:39-56 | the children listed are the allowed entries that pass the test, no more and no fewer |
| Ou.DirectChildrenConcat | crates/ldap/src/dn.rs:39-56 | the children keep the order of the allowed list |
| Ou.OneParent | crates/ldap/src/dn.rs:39-56 | an entry has at most one parent, up to case |
| Ou.ExpandExact | crates/ldap/src/dn.rs:39-56 | without an empty entry, expanding an OU level by level lists exactly the allowed entries below it whose intermediate OUs are all allowed, case duplicates included |
| Ou.ExpandUnique | crates/ldap/src/dn.rs:39-56 | the expansion lists no entry twice |
| Ou.TreeWalk | crates/ldap/src/dn.rs:39-56 | without an empty entry, every depth from the deepest entry's on gives the same walk from the root: exactly the entries all of whose proper prefixes are allowed, and each once if the entries differ in more than case |
| Ou.EmptyEntryNeverEnds | crates/ldap/src/dn.rs:45-46 | in any list with an empty entry, which is its own child, a walk of n levels lists at least n entries |
| Ou.WalkEndsIff | crates/ldap/src/dn.rs:39-56 | the walk from the root ends exactly for the lists without an empty entry |
| Classify.CheckSubtree | crates/ldap/src/dn.rs:108-125 | the indexed loop with its early exits decides the suffix relation up to case |
| Classify.LeafByCounting | crates/ldap/src/dn.rs:216-227 | under every base the count test asks for one RDN that is no `ou` above the base and one more for each `ou` of the base; under a base without `ou` it is the shape test: one leaf, then `ou` RDNs only, then the base |
| Classify.ClassifyExact | crates/ldap/src/dn.rs:204-241 | under every base, exactly which DNs are users, groups or outside the subtree: by the count of other RDNs above the base, the first RDN's type, and the last `ou` RDN |
| Classify.ClassifyUnderPlainBase | crates/ldap/src/dn.rs:204-241 | under a base without `ou`, users are exactly the `uid` leaves and the `cn` leaves of a user OU, and groups exactly the other `cn` leaves |
| Classify.TestsShapeIff | crates/ldap/src/dn.rs:227 | the classifier accepts exactly the well-shaped `uid` DNs under a base if and only if the base has no `ou` |
| Classify.ProperLeafRejected | crates/ldap/src/dn.rs:227 | under every base with an `ou`, a user right above the base is not recognised |
| Classify.JunkIsAccepted | crates/ldap/src/dn.rs:227-234 | under every base, as many RDNs of any other kind as the base has `ou` RDNs pass between a user's name and the base |
| Classify.JunkRdn | crates/ldap/src/dn.rs:227-234 | under `ou=x,dc=y` the DN `uid=a,foo=b,ou=x,dc=y` is taken for user `a` |
| Classify.ContainersAreNotEntries | crates/ldap/src/dn.rs:90-105 | no allowed container is a user or a group, for any base |
| Classify.ContainerExact | crates/ldap/src/dn.rs:90-125 | under every base, the container and subtree tests on DNs with clean `ou` values hold exactly if the `ou` RDNs are an allowed normal OU's chain and there are as many other RDNs above the base as the base has `ou` RDNs |
| Classify.AllowedChainUnderPlainBase | crates/ldap/src/dn.rs:90-125 | under a base without `ou` that is exactly the chain of an allowed OU followed by the base |
| Classify.ContainerAcceptsSlash | crates/ldap/src/dn.rs:95-104 | a DN the container test accepts that is no allowed OU's chain |
| Directory.LdapInfoIsBase | crates/ldap/src/core/utils.rs:23-36 | the parsed base and its string form stay in step: the string parses back to the parts |
| Directory.BuildDnIsPrint | crates/ldap/src/dn.rs:300-327 | building an entry DN is printing its RDNs, whatever the OU: no stray comma |
| Directory.EntryDnParses | crates/ldap/src/dn.rs:300-327 | an entry DN parses back to its lower-cased name, OU chain and base |
| Directory.UserDnClassifies | crates/ldap/src/dn.rs:204-241 | a user's entry DN names that user exactly when the base has no `ou` |
| Directory.GroupDnClassifies | crates/ldap/src/dn.rs:204-241 | under every base: a group's entry DN names nothing if the base has an `ou`, and otherwise that group exactly when its first OU component is present and not `people`, and else a user |
| Directory.EntryDnInjective | crates/ldap/src/dn.rs:300-327 | two entries of a kind share a DN exactly when they share name and OU components |
| Directory.FindOuExact | crates/ldap/src/attributes.rs:66-78 | the attribute read is the first one named `ou` in any case, wherever it stands, and none exactly if there is no such attribute |
| Directory.OuAt | crates/ldap/src/attributes.rs:66-78 | the OUs of users, groups and memberOf values for each kind of value of that attribute |
| Directory.OuDefaults | crates/ldap/src/attributes.rs:66-78 | without such an attribute users are under `people` and groups under `groups` |
| Directory.MemberOfAgrees | crates/ldap/src/attributes.rs:258-279 | the memberOf DN is the group's entry DN exactly when the first `ou` attribute is no list headed by something other than `groups` |
| Directory.ListValuedOuDiffers | crates/ldap/src/attributes.rs:258-279 | a group with a list-valued `ou` whose memberOf value is not its entry DN |
| Directory.EntryShownIff | crates/ldap/src/dn.rs:300-327 | under every base, the DN built from the stored OU is the one an entry was added with, its first type aside, exactly when the base has no `ou` and the `ou` values are clean |
| Directory.AddAndSearchAgree | crates/ldap/src/create.rs:28-48 | under every base, search shows an added user under the DN of the Add, its first type made `uid`, exactly when the base has no `ou` and the `ou` values are clean |
| Directory.GroupAddAndSearchAgree | crates/ldap/src/create.rs:28-48 | under every base, search shows an added group under exactly the DN of the Add by the same condition |
| Directory.SearchAndBindAgree | crates/ldap/src/handler.rs:171-197 | the shown DN names the same user exactly when the base has no `ou`, and else nobody; it then passes the strict OU check exactly when the stored OU is normal |
| Directory.CleanAddsBind | crates/ldap/src/handler.rs:171-197 | the added, the shown and the bound DN agree exactly when the base has no `ou` and the `ou` values are clean; the Add DN itself always passes the OU check |
| Directory.SlashIsShownElsewhere | crates/ldap/src/create.rs:28-48 | a user added under an `ou` value with a backslash is shown under another DN |
| Directory.BlankComponentFailsCheck | crates/ldap/src/handler.rs:171-197 | a user added as `uid=bob,ou=,ou=a,dc=x` is shown under a DN that fails the OU check |
| Directory.JunkIsShownElsewhere | crates/ldap/src/create.rs:28-48 | under every base with an `ou`, a user added past other RDNs is shown under a DN that differs and names nobody |
| Directory.JunkWithCleanOus | crates/ldap/src/create.rs:28-48 | that holds of `uid=a,foo=b,ou=x,dc=y` under `ou=x,dc=y`, whose stored OU is clean and normal |
| Members.AscendingUnique | crates/ldap/src/attributes.rs:407-436 | a strictly ascending list is determined by its elements, so the ordered set's contents fix the values |
| Members.LessExact | crates/ldap/src/attributes.rs:407-436 | the order of the values: at the first difference a string ends or has the smaller code point |
| Members.MemberValuesExact | crates/ldap/src/attributes.rs:407-436 | member values are strictly ascending, are exactly the DNs of the shown members, and there is one for each distinct pair of user and OU |
| Substring.ToSqlFilter | crates/domain-handlers/src/handler.rs:32-54 | the buffer ends as the pattern and its byte length is exactly the capacity reserved |
| Substring.LiteralFilterKeepsMeaning | crates/domain-handlers/src/handler.rs:32-54 | for literal filters LIKE matches a text exactly when the text splits into initial, gaps, the parts in order, and final |
| Substring.OtherFiltersLoseMeaning | crates/domain-handlers/src/handler.rs:32-54 | any other filter has a lower-case text on which LIKE and the assertion differ |
| Substring.MeaningPreservedIff | crates/domain-handlers/src/handler.rs:32-54 | the meaning is preserved on all texts, and likewise on all lower-case texts, exactly for literal filters, with and without an escaping backslash |
| CaseOrder.CompareCaseInsensitive | crates/domain/src/types.rs:140-156 | the loop over two lowering iterators, each character lowering to several, is lexicographic order on the lowered strings |
| CaseOrder.LexFirstDifference | crates/domain/src/types.rs:140-156 | less means a proper prefix or a smaller character at the first difference |
| CaseOrder.ComparisonIsPreorder | crates/domain/src/types.rs:173-187 | the order is a total preorder, antisymmetric up to equality, and equality is having the same lowered characters |
| CaseOrder.EqualNamesHashEqually | crates/domain/src/types.rs:173-193 | equal names give equal hash input exactly when their word-final capital sigmas agree, in particular if neither has a capital sigma |
| CaseOrder.FinalSigmaExact | crates/domain/src/types.rs:189-193 | which capital sigmas whole-string lowering makes final: by the nearest cased letters on either side |
| CaseOrder.SigmaBreaksHashing | crates/domain/src/types.rs:189-193 | two equal names with different hash input, under all tables that agree with Unicode on alpha and sigma |
| Access.PermissionsExact | crates/access-control/src/lib.rs:257-279 | which group gives which right over whom: administration and writing by lldap_admin, changing passwords also by lldap_password_manager unless the other is an administrator, reading by any of the three, and everything over oneself |
| Access.InGroupExact | crates/access-control/src/lib.rs:266 | membership is by name up to case |
| Access.PermissionsGrow | crates/access-control/src/lib.rs:257-279 | more groups never take away reading, writing, reading all, changing passwords or administration |
| Access.NoGroupsOwnOnly | crates/auth/src/access_control.rs:27-57 | without groups a user reads, writes and changes the password of exactly themselves |
| Access.EvalAllExact | crates/domain-handlers/src/handler.rs:73-78 | a conjunction is true if all its parts are and false if one is, over SQL's three truth values |
| Access.EvalAnyExact | crates/domain-handlers/src/handler.rs:73-78 | a disjunction is true if one of its parts is and false if all are |
| Access.SelectConcat | crates/access-control/src/lib.rs:323-339 | the backend answers row by row, in table order |
| Access.SelectOne | crates/access-control/src/lib.rs:323-339 | a row is selected exactly if the filter is true of it |
| Access.RestrictCutsDown | crates/access-control/src/lib.rs:323-339 | for every filter tree and three-valued row semantics, conjoining an atom keeps exactly the rows of the atom, in order |
| Access.RestrictedUsersExact | crates/access-control/src/lib.rs:237-250 | a regular user's user list is the unrestricted one cut down to their row; all others' lists are unrestricted |
| Access.RestrictedGroupsExact | crates/access-control/src/lib.rs:346-358 | a regular user's group list is cut down to the groups they belong to; all others' lists are unrestricted |
| Access.ListedExact | crates/access-control/src/lib.rs:323-358 | row by row: a regular user finds their own row and the groups with a member of their id, of those the search asks for |
| Access.NarrowedMembers | crates/ldap/src/attributes.rs:407-420 | member values narrowed to a user name that user only |
| Access.SearchNarrowsIff | crates/ldap/src/search/handler.rs:138-144 | a search shows the narrowed member values exactly when the group has no other member |
| Access.OtherMemberShown | crates/ldap/src/search/handler.rs:138-144 | what a search shows beyond the narrowed values is every other member |
| Access.GroupOfTwo | crates/ldap/src/search/handler.rs:138-144 | in any group of two, a regular user is shown the other member |
| TokenTables.CastsUndoEachOther | server/src/sql_tcp_backend_handler.rs:31-42 | the casts between u64 and i64 undo each other, so distinct hashes have distinct keys |
| TokenTables.HashQueries | server/src/sql_tcp_backend_handler.rs:31-42 | both selects on the JWT table, in terms of the row stored under the cast hash |
| TokenTables.SqlBackend.RegisterJwt | server/src/sql_tcp_backend_handler.rs:68-84 | on a free key the hash becomes valid for its user while no other hash changes for anybody and the blacklist stays; on a taken key nothing changes |
| TokenTables.SqlBackend.CreateRefreshToken | server/src/sql_tcp_backend_handler.rs:45-65 | the new token is accepted for its user and nobody else and every other token as before, with thirty days to live; on a taken key nothing changes |
| TokenTables.SqlBackend.BlacklistJwts | server/src/sql_tcp_backend_handler.rs:99-121 | the user is left no valid hash, those there were are returned and join the blacklist, and no other user's hashes change |
| TokenTables.SqlBackend.DeleteRefreshToken | server/src/sql_tcp_backend_handler.rs:124-129 | this token is accepted for nobody any more, every other one as before |
| TokenTables.SqlBackend.StartPasswordReset | server/src/sql_tcp_backend_handler.rs:132-154 | for a known user the token is found for exactly ten minutes and names that user, and every other token is found as before; for an unknown user or a taken token nothing changes |
| TokenTables.SqlBackend.DeletePasswordResetToken | server/src/sql_tcp_backend_handler.rs:167-177 | the token is never found again and every other one as before; it is an error exactly when there was no row |
| TokenTables.SqlBackend.CleanupDb | server/src/db_cleaner.rs:51-73 | a row stays, unchanged, exactly if its expiry is not past, and no look-up of a reset token from then on can tell |
| AuthRuns.RejectedIff | server/src/auth_service.rs:598-616 | a signed token is rejected exactly when it is past its claim or its hash is in memory |
| AuthRuns.CheckTokenExact | server/src/auth_service.rs:598-616 | every presented text is accepted exactly if it is signed, HS512, not past its claim and its hash not in memory; and which error it gets otherwise |
| AuthRuns.AcceptedWho | server/src/auth_service.rs:617-624 | an accepted token stands for its user with exactly the rights of the groups in its claims |
| AuthRuns.ClaimCutsFraction | crates/auth/src/lib.rs:213-214 | the expiry claim is the expiry less a fraction of a second |
| AuthRuns.RowOutlivesToken | crates/auth/src/lib.rs:213-214 | a row past its expiry belongs to a token past its claim, which is cut to seconds |
| AuthRuns.RowSurvives | server/src/db_cleaner.rs:59-65 | no step removes or unblacklists the row of an unexpired token |
| AuthRuns.InvAlways | server/src/auth_service.rs:52-79 | in every reachable state each token handed out has its row until it expires |
| TokenOrigins.TokenEarned | server/src/auth_service.rs:102-125 | over every run each token handed out goes back to a login with its groups, a refresh token accepted for its user with the groups looked up then, or a reset token found for its user with no groups |
| TokenOrigins.TokenMinted | server/src/auth_service.rs:58-68 | over every run each token handed out expires a day after some instant before, in whole seconds |
| TokenOrigins.AdminWasEarned | server/src/auth_service.rs:598-624 | if an accepted token makes an administrator, a login or refresh of that user came with lldap_admin, never a reset |
| RowLifetimes.ResetFoundIff | server/src/sql_tcp_backend_handler.rs:157-164 | over every run a reset token is found, and for its user, exactly in the ten minutes after it was sent and until it is deleted |
| RowLifetimes.ResetRowExact | server/src/db_cleaner.rs:66-72 | over every run the row of a reset token is there exactly until the token is deleted or a cleaning finds it expired |
| RowLifetimes.JwtRowExact | server/src/db_cleaner.rs:59-65 | over every run the row of a token is there exactly until a cleaning finds it expired, and blacklisted exactly if a logout of its user has updated since |
| RowLifetimes.RestartEndsRequests | server/src/tcp_server.rs:211-214 | a restart ends every request in progress for good, leaves the tables and makes memory the database's |
| LogoutSafety.LogoutSafe | server/src/auth_service.rs:284-299 | over every interleaving and any restarts, a token valid when a logout selected is rejected in every state after that logout ended |
| LogoutSafety.SoloLogoutResult | server/src/auth_service.rs:291-299 | an uninterrupted logout reaches the state the handler method computes |
| LogoutSafety.SoloLogoutRejects | server/src/auth_service.rs:291-299 | such a logout rejects the valid tokens of its user and nobody else's |
| BlacklistCache.UpdateKeepsCacheIff | server/src/sql_tcp_backend_handler.rs:115-120 | the update of a logout leaves memory covering the database exactly when every valid row was selected, is in memory or is about to be |
| BlacklistCache.CoverStepIff | server/src/sql_tcp_backend_handler.rs:115-120 | no step but the update of a logout can break the coverage, and that one does exactly by the same condition |
| BlacklistCache.CoversRunIff | server/src/auth_service.rs:295-299 | over whole runs memory covers the database all along exactly when every update meets that condition |
| BlacklistCache.CacheInvAlways | server/src/auth_service.rs:295-299 | in runs without overtaking every blacklisted hash is in memory or about to be inserted, and selections stay current |
| BlacklistCache.ExactAlways | server/src/auth_service.rs:295-299 | with distinct hashes, whatever is in memory or on its way there is the hash of a token handed out, and is blacklisted on disk or expired |
| BlacklistCache.AllIssuedAlways | server/src/auth_service.rs:52-79 | in every reachable state each hash in the table, in memory or selected by a logout is that of a token handed out |
| BlacklistCache.CacheAgrees | server/src/tcp_server.rs:211-214 | in runs without overtaking memory holds every blacklisted hash between logouts, and any further hash is that of a token handed out which has expired |
| BlacklistCache.ForgottenIsAccepted | server/src/auth_service.rs:598-616 | in every run without a restart, a token blacklisted on disk only, and not selected by a logout, is accepted exactly until it expires; a restart rejects it |
| BlacklistCache.RaceForgets | server/src/sql_tcp_backend_handler.rs:101-119 | a run from the start that leaves such a token |
| BlacklistCache.RaceLeavesTokenAccepted | server/src/sql_tcp_backend_handler.rs:101-119 | after that run, any restart-free continuation with any number of further logouts leaves the token accepted exactly until it expires |
| RefreshTokens.SplitOnceExact | server/src/auth_service.rs:81-86 | splitting at the first plus sign fails exactly without one and gives back the text otherwise |
| RefreshTokens.CookieParsesBack | server/src/auth_service.rs:368-370 | the cookie of an alphanumeric token parses back to its hash and its user in lower case, plus signs in the name included |
| RefreshTokens.RefreshAcceptedIff | server/src/sql_tcp_backend_handler.rs:87-96 | over every run a refresh token is accepted for its user and nobody else, exactly until a logout presents it or a cleaning finds it expired |
| RefreshTokens.ExpiredTokenAccepted | server/src/sql_tcp_backend_handler.rs:87-96 | a run after which a refresh token is accepted a day past its expiry |
| ResetTokens.RedeemedInTime | server/src/sql_tcp_backend_handler.rs:157-164 | every redemption goes back to a token sent to that user and looked up strictly less than ten minutes later, and is itself that early if the clock stands between look-up and redemption |
| ResetTokens.LateRedemptionHappens | server/src/auth_service.rs:237-250 | a run from the start in which a token looked up in time is redeemed when its ten minutes are over |
| ResetTokens.ResetSessionOwnOnly | server/src/auth_service.rs:249-250 | in every later state a session from a reset token reads, writes and changes the password of that user only |
| ResetTokens.RedeemedAtMostOnce | server/src/auth_service.rs:237-250 | in careful runs no token is redeemed twice, no two requests hold one token, and a spent token cannot be looked up |
| ResetTokens.SingleUseIff | server/src/auth_service.rs:237-250 | exactly the careful steps keep that: a look-up that finds its token meets no other holder, and a delete fails only on a token that cannot be looked up any more |
| ResetTokens.SingleUseRunIff | server/src/auth_service.rs:237-250 | over whole runs with fresh tokens it holds throughout exactly when every step is careful |
| ResetTokens.CarefulStepIff | server/src/auth_service.rs:237-250 | after a step, every careful continuation redeems each token at most once if and only if the step was careful |
| ResetTokens.CarelessRedeemsTwice | server/src/auth_service.rs:237-250 | after a step that is not careful, careful steps alone redeem a token twice |
| ResetTokens.SpentTokensAreGone | server/src/sql_tcp_backend_handler.rs:167-177 | where deletes do not fail, a spent token's row is gone, however requests overlap |
| ResetTokens.HolderRedeems | server/src/auth_service.rs:245-250 | a request past its look-up goes on to redeem, with the token's user and no groups, by careful steps |
| ResetTokens.OverlapRedeemsTwice | server/src/auth_service.rs:237-250 | two requests past the look-up of one token redeem it twice |
| ResetTokens.FailedDeleteRedeemsTwice | server/src/auth_service.rs:245-248 | a request whose delete failed redeems, and so does the next request |
| ResetTokens.OverlapHappens | server/src/auth_service.rs:237-250 | a run from the start in which two requests redeem one token |
| ResetTokens.FailedDeleteHappens | server/src/auth_service.rs:245-248 | a run from the start in which one failed delete lets a token be redeemed twice |
| AuthService.AppState.constructor | server/src/tcp_server.rs:211-214 | a token is logged out in memory exactly if its row is blacklisted, which establishes the coverage every handler keeps |
| AuthService.AppState.CreateJwt | server/src/auth_service.rs:52-79 | registers a row with the full expiry and returns a claim cut to seconds, or fails on a taken hash; memory goes on covering the database |
| AuthService.AppState.GetRefresh | server/src/auth_service.rs:102-139 | issues a token for the presented user exactly when the refresh row is theirs, and changes nothing otherwise; memory goes on covering the database |
| AuthService.AppState.GetLogout | server/src/auth_service.rs:284-299 | leaves database and memory where an uninterrupted logout of the state machine does, and memory covering the database |
| AuthService.AppState.InsertHashes | server/src/auth_service.rs:296-299 | the loop adds exactly the hashes the database call returned |
| AuthService.AppState.GetPasswordResetStep2 | server/src/auth_service.rs:226-250 | an unexpired token is deleted and turned into a token without groups; otherwise nothing changes; memory goes on covering the database |
| LdapSession.LdapHandler.DoBind | crates/ldap/src/handler.rs:166-215 | answers by credentials, known user and OU check, touches the bound identity on Success only, and then binds exactly if the user's groups could be looked up |
| LdapSession.BindSucceedsIff | crates/ldap/src/handler.rs:166-215 | a Bind is answered Success exactly if its DN names a user, the password is theirs, they exist and the DN carries their OU |
| LdapSession.AuthenticateExact | crates/ldap/src/password.rs:24-68 | which code a Bind is refused with before the OU check |
| LdapSession.LdapHandler.HandleLdapMessage | crates/ldap/src/handler.rs:357-394 | one message changes the session as specified, and has no reply exactly when it is an Unbind |
| LdapSession.HandleStream | server/src/ldap_server.rs:116-123 | the loop stops after the first Unbind, which loses no call to the backend |
| LdapSession.ClosedForGood | server/src/ldap_server.rs:116-123 | a closed connection stays closed, replies to nothing and calls nothing |
| LdapSession.UnbindEndsIt | crates/ldap/src/handler.rs:357-394 | nothing after an Unbind is answered or reaches the backend |
| LdapSession.BoundByLatestBind | crates/ldap/src/handler.rs:166-215 | a bound connection carries the user of the latest successful Bind, whose DN carried the stored OU, with the permissions of that moment |
| LdapSession.WritesFollowAdminBind | crates/ldap/src/handler.rs:318-341 | every Add or Delete that reaches the backend follows a Bind of a member of lldap_admin with no Unbind or other successful Bind between |
| LdapSession.RejectedBindKeepsIdentity | crates/ldap/src/handler.rs:166-215 | a Bind not answered Success changes nothing |
| LdapSession.AddExact | crates/ldap/src/create.rs:28-48 | an Add creates exactly the user or group its DN names, under the OU its DN spells out, or fails with the code given |
| LdapSession.DelExact | crates/ldap/src/delete.rs:24-40 | a Delete calls for exactly the entry its DN names, if that exists |
| LdapSession.BoundAfterBindIff | crates/ldap/src/handler.rs:183-190 | over message sequences: after a Bind answered Success the connection is bound exactly when the groups of the user named could be looked up at that moment |
| LdapSession.SuccessLosesIdentity | crates/ldap/src/handler.rs:183-190 | whoever can bind can lose their identity to a second Bind that is answered Success |
| LdapSession.BobIsNobody | crates/ldap/src/handler.rs:183-190 | a connection bound as bob that is answered Success and is then bound to nobody |
| LdapSession.AddedUserBinds | crates/ldap/src/create.rs:152-163 | under every base, a user created over LDAP binds with the shown DN and the right password exactly when the base has no `ou` and the stored OU is normal |
| LdapSession.BlankComponentCannotBind | crates/ldap/src/create.rs:152-163 | a user created with a blank component who cannot bind with the shown DN and the right password |
| LdapSession.JunkUserCannotBind | crates/ldap/src/create.rs:152-163 | a user created under a base with an `ou` who cannot bind although the stored OU is normal |
| SearchEntry.Deduplicate | crates/ldap/src/attributes.rs:535-536 | retaining by a set of seen names keeps the first attribute of each name |
| SearchEntry.KeepFirstTypes | crates/ldap/src/attributes.rs:535-536 | no type name is lost or gained |
| SearchEntry.KeepFirstLookup | crates/ldap/src/attributes.rs:535-536 | a reader finds the same first attribute under every name as before |
| SearchEntry.KeepFirstDistinct | crates/ldap/src/attributes.rs:535-536 | names are distinct afterwards, and nothing changes where they were |
| SearchEntry.KeepFirstPrefix | crates/ldap/src/attributes.rs:599-600 | later attributes affect neither which earlier ones are kept nor their order |
| SearchEntry.InjectOperationalAttributes | crates/ldap/src/attributes.rs:82-122 | the five conditional pushes append exactly the missing operational attributes |
| SearchEntry.InjectionLaws | crates/ldap/src/attributes.rs:82-122 | all five are present afterwards, injecting again adds nothing, and nothing added duplicates a name up to case |
| SearchEntry.InjectedLookup | crates/ldap/src/attributes.rs:82-122 | a reader finds under every name that was there what they found before, and under an operational name that was not its default value |
| SearchEntry.InjectionCommutesWithDedup | crates/ldap/src/attributes.rs:508-538 | injection and deduplication can be done in either order |
| Migration.GraphQLClient.PostOne | migration-tool/src/lldap.rs:240-279 | every try but the last failed and was answered Retry, the last one decides, a muted request is tried once and never asked about, and the server changes only on success |
| Migration.GraphQLClient.InsertUsers | migration-tool/src/lldap.rs:231-283 | each user is tried at least once unless aborted, succeeds at most once and in order; the count and the known ids are those of the successes; after Skip all nothing is asked; it fails exactly if the answer Abort was given |
| Migration.GraphQLClient.InsertGroups | migration-tool/src/lldap.rs:285-345 | likewise for the groups not on the server, each remembered with the id it was given |
| Migration.GraphQLClient.InsertMembers | migration-tool/src/lldap.rs:394-451 | likewise for the missing members of one group; after Skip group or Skip all nothing more is asked about it |
| Migration.GraphQLClient.InsertMemberships | migration-tool/src/lldap.rs:372-456 | likewise over all groups: under any answers only missing memberships are requested, and after Skip all nothing is asked about any group |
| MigrationRuns.NewUsersExact | migration-tool/src/main.rs:23-30 | the users to add are exactly those whose id is not on the server |
| MigrationRuns.NewUsersOne | migration-tool/src/main.rs:26-30 | one user is added exactly if their id is not on the server, and once |
| MigrationRuns.NewUsersConcat | migration-tool/src/main.rs:26-30 | the users to add keep order and repetitions of the list |
| MigrationRuns.GroupPostsExact | migration-tool/src/lldap.rs:292-297 | the groups to add are exactly the listed ones whose name is not on the server |
| MigrationRuns.GroupPostsOne | migration-tool/src/lldap.rs:294-297 | one group is added exactly if its name is not on the server, and once |
| MigrationRuns.ResolveExact | migration-tool/src/lldap.rs:383-387 | a DN resolves to the id of the last LDAP user that has it, and to nobody exactly if none has |
| MigrationRuns.FindGroupExact | migration-tool/src/lldap.rs:380-382 | a name finds the last group on the server that has it, and none exactly if none has |
| MigrationRuns.GroupPostsConcat | migration-tool/src/lldap.rs:294-297 | the groups to add keep order and repetitions of the list |
| MigrationRuns.WantedIsMissing | migration-tool/src/lldap.rs:390-403 | a membership wanted is that of the LDAP user with a DN among the members of an LDAP group, known to the server and not in the group of that name |
| MigrationRuns.MembersPresent | migration-tool/src/lldap.rs:372-456 | after the memberships are in, no member of an LDAP group is missing |
| MigrationRuns.RunBringsEverythingOver | migration-tool/src/main.rs:187-207 | a run leaves every LDAP group on the server, with every member that resolves to a lower-case id, and on a server with lower-case ids with none that resolves to another |
| MigrationRuns.MembersBroughtOver | migration-tool/src/main.rs:187-207 | by DN: an LDAP user whose DN is among the members of an LDAP group ends up in the group exactly if their id is in lower case |
| MigrationRuns.OnlyMembersJoin | migration-tool/src/main.rs:187-207 | and nobody else: whoever is new in a group is an LDAP user whose DN is a member of an LDAP group of that name |
| MigrationRuns.RerunPostsNothingIff | migration-tool/src/main.rs:23-30 | a second run posts nothing exactly when all LDAP user ids are in lower case |
| MigrationRuns.MixedCaseIsPostedAgain | migration-tool/src/main.rs:23-30 | a mixed-case id that is posted again |
| MigrationRuns.MixedCaseIsLeftOut | migration-tool/src/lldap.rs:395-403 | a mixed-case id that is left out of its group |
| MigrationRuns.MigrateUsers | migration-tool/src/main.rs:122-141 | only agreed requests for users not on the server are made, answers are obeyed, and the list handed on is the server's |
| MigrationRuns.MigrateGroups | migration-tool/src/main.rs:92-115 | only agreed requests for groups not on the server are made, answers are obeyed, and the list handed on is the server's |
| MigrationRuns.MigrateMemberships | migration-tool/src/main.rs:143-185 | only requests for memberships missing from the fetched lists are made, and answers are obeyed |
| MigrationRuns.Migrate | migration-tool/src/main.rs:187-207 | whatever fails and is answered: only agreed requests, each for a user, group or membership missing at fetch time, answers obeyed in each part, stopped at exactly the first Abort, the server as the successes make it; with every answer yes and no failure exactly what is missing is posted |
| Startup.Metadata.SetUpServer | server/src/main.rs:143-162 | the step-by-step gate and the late stop have the specified result and stored key |
| Startup.GateStep | server/src/main.rs:143-162 | a start that serves has the stored key hash; a stored hash is replaced only by a forced start, which does not serve |
| Startup.StoredKeyExact | server/src/main.rs:143-162 | what a start leaves stored: its own key if there was none or it forces a changed one past a comparison that does not panic, otherwise what was there |
| Startup.PanicsIff | server/src/configuration.rs:243-296 | how keys compare: new without a stored one, same by hash, and a panic exactly if they differ and one is a test key |
| Startup.ChangeExact | server/src/configuration.rs:253-291 | why a changed key is refused, by where the two keys come from |
| Startup.HashKept | server/src/main.rs:143-162 | over any starts without a forced one the stored hash stays |
| Startup.ServesWithOneKey | server/src/main.rs:213-217 | any two serving starts without a forced one between use the same key |
| Startup.ServesIff | server/src/configuration.rs:243-296 | a start serves exactly when the stored key, if any, is its own, nothing is forced and the set-up goes well |
| ConfigKeys.KeyCollector.ProcessValue | server/src/configuration.rs:613-630 | the recursion collects the names below and restores the path stack |
| ConfigKeys.ExtractKeys | server/src/configuration.rs:611-635 | the keys are exactly the upper-cased `LLDAP_` names of the root-to-leaf paths |
| ConfigKeys.EnvNameShape | server/src/configuration.rs:617-626 | every name has no small letter and is, up to case, `lldap_` and the keys of its path joined by double underscores |

## Left out

- RFC 4514 escaping: the code has none; results about built DNs ask names and OUs to be free of `,` and, where they are parsed, of `=`.
- MigrationRuns.MembersBroughtOver: LDAP users are taken to have distinct DNs; `RunBringsEverythingOver` with `ResolveExact` covers repeated ones.
- Directory.EntryDnInjective: names and OUs are asked to be free of commas, because an unescaped comma makes different entries print alike.
- AuthService.AppState.GetPasswordResetStep2: handlers on `AppState` run without interruption and with a working database; interleaving and failing statements are in `AuthRuns`.
- BlacklistCache.CacheAgrees: token hashes are taken to be distinct, and a registration is taken not to fall between select and update of a logout of its user.
- ResetTokens.CarefulStepIff: asks for two token hashes not in the table, which a run that redeems again needs.
- MigrationRuns.RerunPostsNothingIff: the server's own ids are taken to be in lower case, as its API stores them; the replies of the server are an input, and it is not modelled which requests it would refuse.
- Migration.GraphQLClient.PostOne: the questions about users and groups do not offer Skip group; that answer there counts as Skip.
- User deletion and renaming, which cascade to the token tables, are not steps of the token model.
- Signature checking, hashing and randomness: tokens are signed or forged, hashes are chosen by the run, and group memberships and passwords are inputs.
- Lower-casing is ASCII for DNs, OUs, user ids and filter parts; for names it is a parameter that may map a character to several.
- The compilation of the other LDAP filters, the SQL backend, attribute values other than `ou`, the schema and LDAP Modify, Compare, Search dispatch and extended operations.
- The attributes other than `ou` of an Add: whether they are acceptable is an input.
- OPAQUE, Kerberos, Keycloak, mail, TLS, images, the web front end and command line parsing.
