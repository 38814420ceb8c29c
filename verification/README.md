# Proofs about the Cognito OIDC/SAML proxy

The gateway is a multi-tenant identity proxy. Everything it knows lies in one DynamoDB-style table;
on top of that table run an application index with uniqueness markers, the OIDC token lifecycle,
SAML sessions with single logout, custom-login flows bound to a browser, and the rotation of the
signing certificate. This project models those components as state machines and classes, proves the
class methods against functions, and proves properties of every run of the machines.

## Layout

- `Wrappers`, `Clock`, `Strings`: shared shapes, nanosecond time with Unix seconds, byte strings.
- `Keys`, `Table`: the key strings and the abstract table (Put, PutIfNotExists, Get, Query, index
  query, Delete), whose calls fail without effect as a fault schedule says.
- `AppProtocol`, `AppStore`, `ClaimStore`: the application store, one table call per step, calls
  interleaving; its methods; claim mappings.
- `OidcTokens`, `OidcRuns`, `OidcStorage`, `Issuer`: auth requests, codes and tokens as functions and
  runs, with the losses of failed calls; what holds of every run; the handlers on rendered keys, which
  refine those functions; the tenant in the issuer URL.
- `RedirectQuery`, `SamlGateway`, `SamlRuns`: the redirect-binding query and its signed octets; logout,
  sessions and the markers they rest on; runs with a TTL sweep.
- `CustomLogin`: pending rows and binding cookies of custom-login flows.
- `CertStore`, `CertSchedule`: the three certificate slots under checks, imports, promotions and
  faults; rotation over time.
- `ClaimRelease`: claim mappings as read by OIDC, SAML and the preview.
- `MemoryDB`, `SignedCookie`: the flat in-memory table, the signed cookie format.

`dafny verify dfyconfig.toml` checks everything.

## Hypotheses

- Table calls that fail have no effect, and reads, index reads included, see all earlier writes.
- Application store: creates interleave freely; of an application's renames, updates and deletes at
  most one is in flight (`AppProtocol.RacingUpdateDuplicates` shows that this is needed). Generated ids
  are fresh and not empty.
- Tenant slugs and OIDC subjects hold no '#' where a member says so (`'#' !in`, `SlugsHashFree`,
  `IdsHashFree`, `CleanSession`, `TenantKey`). Nothing enforces it: `internal/api/tenant_handlers.go:16`
  takes any slug of 1 to 63 characters. What meets otherwise is stated exactly by
  `AppStore.GSIKeysMeetIff`, `OidcStorage.SessionPartitionsMeetIff` and `MemoryDB.PartitionsCollideIff`.
- HTTP handlers elsewhere are one atomic step with one clock reading; the calls inside an OIDC step may
  still fail one by one. The TTL sweep takes rows only when the current Unix second is past their TTL,
  and need never take them.
- Cryptography is ideal: what a key has signed is given, hashes and MACs are injective, opening undoes
  sealing. Cookies cannot be forged.
- The OIDC library issues a code only for a completed auth request, and looks a refresh token up before
  it issues the new pair, within one step (`OidcRuns.InterleavedRotationsFork` shows what happens otherwise).
- Service providers have non-empty entity IDs.

## What the proofs found

- A rename to a free entityID that ends in a store error can never be retried exactly when it reserved
  the entityID and could not give it back: the application-row write failed, or the SAML-row write and
  then the ignored rollback delete (`AppProtocol.FailedRenameSticksIff`). From that one failed call on no
  application of the tenant can take the entityID, ever, also after the owner is deleted
  (`AppProtocol.SticksIff`, `AppProtocol.LostReservationBlocksForEver`).
- Giving an OIDC application a SAML configuration makes it unfindable by its client id
  (`AppStore.SAMLConfigHidesClient`).
- A refresh token of an active application is dropped for good when the lookup of the application fails
  once, however briefly (`OidcRuns.FailedClientLookupIsFinal`).
- Deletes and index writes the OIDC storage does not insist on cost exactly this: a lost delete of the
  presented token leaves two live tokens (`OidcRuns.RotationLeavesTwoIff`), lost deletes after an exchange
  leave the code good for another (`OidcRuns.CodeWorksAgainIff`), and a lost index row hides its token from
  logout (`OidcRuns.LogoutMissesIff`).
- A tenant named `t` is read back from its issuer as `oidc` (`Issuer.IssuerTenantRoundTrip`).
- Revocation markers last nine hours, and `internal/store/session_store.go:30-35` says that exceeds the
  longest session, but sessions may be configured up to twenty-four hours. `SamlRuns.RevokedComesBackIff`
  and `SamlRuns.RevocationFinalIff` say exactly which sessions come back.
- A logout is reported as a success even when its revocation marker could not be written, and the session
  it revoked is then accepted again (`SamlRuns.SuccessWithoutMarker`).
- A signed logout request without an ID is accepted, never marked, and honoured again when sent again
  (`SamlRuns.EmptyIDRepeats`). One dated in the future, within the allowed skew, can outlive its replay
  mark (`SamlRuns.LogoutRepeatableIff`, for a provider whose registration does not change meanwhile; the
  once-only theorem needs no such condition).
- A rotation check whose record read fails skips the guard for CA-issued certificates
  (`CertStore.CheckReplacesCAIssuedIff`). A promotion whose delete fails leaves the active certificate
  staged as its own successor (`CertStore.CheckLeavesStaleNextIff`); after that, three check intervals
  have to fit between promotion threshold and expiry, and the next certificate is published for one only
  (`CertSchedule.SafeAfterStaleIff`, `CertSchedule.SuccessorPublishedForOneGap`).
- Rotation is safe exactly when a check interval fits between promotion threshold and expiry and twice
  into the window (`CertSchedule.NeverExpiresIff`); that is weaker than asking for it to fit the
  promotion delay.
- Completing a custom login ignores a failed delete, and then the flow works twice
  (`CustomLogin.UsedAgainIffDeleteFailed`).
- Mappings from `name`, `common_name` or a `custom:` source differ between SAML and OIDC
  (`ClaimRelease.MappingAgreesIff`); when role mappings cannot be loaded SAML releases nothing and OIDC
  still what needs none (`ClaimRelease.RolesLostAgreeIff`); the preview does not know `username`
  (`ClaimRelease.PreviewAgreesIff`) and shows reserved targets.

## Model

| member | source | states |
|---|---|---|
| `AppProtocol.NoDuplicateEntityIDs` | internal/store/app_store.go:91-441 | under every interleaving of table calls and every pattern of failed calls, no tenant ever has two applications with one non-empty entityID, and each such application owns the marker of its entityID |
| `AppProtocol.ExecKeepsInv` | internal/store/app_store.go:91-441 | every legal run keeps ownership of markers together with what each call in flight has still to do |
| `AppProtocol.RacingUpdateDuplicates` | internal/store/app_store.go:316-353 | without the one-mutation-per-application rule: an update that read before a rename and writes after it creates a duplicate |
| `AppProtocol.CreateAlone` | internal/store/app_store.go:91-162 | a fault-free create of a free entityID writes marker, application row and SAML row, and nothing else |
| `AppProtocol.RenameAlone` | internal/store/app_store.go:356-418 | a fault-free rename moves the marker and rewrites both rows, and nothing else |
| `AppProtocol.FailedRenameSticksIff` | internal/store/app_store.go:356-418 | a rename to a free, different entityID that ends in a store error has its retry refused as a duplicate if and only if the two reads and the reservation succeed and the fifth call fails: the application-row write, or the rollback delete when the SAML-row write failed too |
| `AppProtocol.SticksIff` | internal/store/app_store.go:91-441 | among interleaved calls, a table call of a Create, rename or delete leaves the reservation it holds with an owner that does not carry the entityID, and nobody left to release it, if and only if it fails and is the last of its call to use the reservation |
| `AppProtocol.StuckForEver` | internal/store/app_store.go:91-441 | such a reservation survives every later run, deletion of its owner included |
| `AppProtocol.LostReservationBlocksForEver` | internal/store/app_store.go:118-131 | so after that one failed call every Create and every rename to that entityID, in any continuation, is refused at its reservation |
| `AppProtocol.ReachableTablesIndexed` | internal/store/app_store.go:91-441 | under every interleaving and fault each application row sits under its own entityID in the index and names its own id and tenant there |
| `AppStore.SerialRunsStayConsistent` | internal/store/app_store.go:91-441 | after any fault-free serial history the non-empty markers are exactly the (tenant, entityID) pairs of application rows, and SAML rows agree with them |
| `AppStore.CallKeepsConsistent` | internal/store/app_store.go:91-441 | each single call keeps that agreement |
| `AppStore.CreateRefusedIffTaken` | internal/store/app_store.go:118-148 | a create is refused as a duplicate if and only if an application of the tenant already has the entityID |
| `AppStore.RenameRefused` | internal/store/app_store.go:372-390 | a rename to a taken entityID changes nothing |
| `AppStore.DeleteAlone` | internal/store/app_store.go:421-441 | a fault-free delete removes exactly the application's own rows and its marker |
| `AppStore.GSIKeyFixesTenant` | internal/store/app_store.go:86-88 | index keys tell tenants and entityIDs apart when slugs hold no '#' |
| `AppStore.GSIKeysMeetIff` | internal/store/app_store.go:86-88 | two tenants have some index key in common if and only if they are the same or one slug and a '#' begin the other |
| `AppStore.TrustedEntryIsOurs` | internal/store/app_store.go:216-254 | in every reachable table, even with colliding keys, an index entry whose tenant attribute matches is the tenant's own application with that entityID |
| `AppStore.ConsistentIsIndexed` | internal/store/app_store.go:216-254 | tables of fault-free serial histories are among those the lookups are proved on |
| `AppStore.IndexHoldsTheApplication` | internal/store/app_store.go:216-254 | in every reachable table of '#'-free slugs the index returns exactly the application a scan of the tenant would find, and there is at most one |
| `AppStore.ClientEntries` | internal/store/app_store.go:257-289 | a client-id lookup matches exactly the OIDC applications with that id |
| `AppStore.AppStore.Create` | internal/store/app_store.go:91-162 | issues the calls of the create protocol; for every fault schedule the table left behind and the outcome are exact: created, refused as a duplicate with nothing written, or a store error with the reservation given back unless that fails, or with the application but not its configuration written |
| `AppStore.AppStore.UpdateSAMLConfig` | internal/store/app_store.go:356-418 | the same for a rename or rewrite: the table and the outcome after every fault schedule, the reservation and the index key following the entityID |
| `AppStore.AppStore.Update` | internal/store/app_store.go:316-353 | an empty id is refused; otherwise it is done if and only if the row is there and both reads and the write succeed, and then only that row's application is replaced; missing if and only if it can be read to be absent; every other outcome is a store error, and changes nothing |
| `AppStore.AppStore.Delete` | internal/store/app_store.go:421-441 | done if and only if the row is there and its read and delete succeed; then the other rows and the marker go too, each unless its own delete fails; otherwise nothing changes |
| `AppStore.AppStore.GetByTenantEntityID` | internal/store/app_store.go:216-254 | in every reachable table it returns only an application of this tenant with this entityID and that application's own configuration; with '#'-free slugs and no faults it finds it, configuration included, if and only if a scan would |
| `AppStore.AppStore.GetByClientID` | internal/store/app_store.go:257-289 | returns the application the client id names with its stored OIDC configuration; without faults it finds it if and only if some tenant has an application of that id with no SAML configuration |
| `AppStore.SAMLConfigHidesClient` | internal/store/app_store.go:397-410 | giving an application a SAML configuration takes it out of the client-id index of its tenant |
| `AppStore.AppStore.List` | internal/store/app_store.go:292-313 | returns exactly the tenant's application rows, each once |
| `Keys.RenderInjective` | internal/store/app_store.go:91-162 | the sort-key strings of '#'-free ids never meet |
| `Keys.ClaimPrefixSelects` | internal/store/claim_store.go:46-90 | the claim prefix query selects exactly the claim rows of one application |
| `Keys.RolePrefixSelects` | internal/store/claim_store.go:93-137 | the role prefix query selects exactly the role rows of one application |
| `Keys.ListSelectsApplications` | internal/store/app_store.go:292-313 | the filter of List keeps exactly application rows |
| `ClaimStore.ClaimStore.PutClaimMappings` | internal/store/claim_store.go:46-73 | without faults the stored mappings become the last-wins-by-name set; whatever fails, success means every mapping of that set is stored, and no other row of the table changes |
| `ClaimStore.ClaimStore.GetClaimMappings` | internal/store/claim_store.go:76-90 | returns every stored mapping of the application once, and nothing else |
| `ClaimStore.LastMappingStays` | internal/store/claim_store.go:46-73 | of several mappings with one name the last is the one kept |
| `ClaimStore.NamesComeFromMappings` | internal/store/claim_store.go:46-73 | no name is kept that was not put |
| `OidcTokens.RunKeepsInv` | internal/oidc/storage.go:223-679 | over every run of authorizations, logins, codes, exchanges, rotations, revocations, logouts, configuration changes and sweeps, with every pattern of lost best-effort calls: records match their login; a live token is indexed unless its own index row was lost; the index is sound; a login has one refresh token unless a delete of its own was lost |
| `OidcTokens.LogoutKeepsInv` | internal/oidc/storage.go:618-642 | a logout leaves no live token without its index row except one whose own delete failed |
| `OidcTokens.DropIndexRowKeepsTokens` | internal/oidc/storage.go:586-598 | the sweep can take an index row only after its token has expired |
| `OidcTokens.ExchangeIs` | internal/oidc/storage.go:367-498 | whatever calls are lost, an exchange is: use up the auth request, then write the tokens that copy its login, each with its index row; or the access token alone when the refresh token cannot be written |
| `OidcTokens.GrantIs` | internal/oidc/storage.go:440-577 | whatever calls are lost, a granted refresh is: drop the presented token and its index row, then write the new pair for the same login; or one access token more when the refresh token cannot be written |
| `OidcTokens.LookupIsForLogin` | internal/oidc/storage.go:532-577 | the request rebuilt from a refresh token speaks for exactly the login it descends from |
| `OidcTokens.NewTokensMatch` | internal/oidc/refresh_token.go:102-119 | new records carry the request's subject, client, audience, AMR, time and full claims, email_verified included |
| `OidcRuns.RefreshTokensCarryTheirLogin` | internal/oidc/storage.go:344-498 | in every run every stored refresh token carries exactly the claims, client, audience, AMR and time of the login its own lineage started from, a login completed in the run for the client it was authorized for |
| `OidcRuns.AccessTokensCarryTheirLogin` | internal/oidc/storage.go:380-432 | the same for every access token, over any number of rotations |
| `OidcRuns.TokensAreIssuedByTheirStep` | internal/oidc/storage.go:380-577 | a token's login never changes, and every token of a run was issued by one of its steps to the login of the request exchanged, or of the token presented, there |
| `OidcRuns.GrantPassesLogin` | internal/oidc/storage.go:532-577 | a granted refresh gives both new tokens the presented token's login, the scopes asked for and the client's configured lifetimes, and the new refresh token everything else of the presented record |
| `OidcRuns.ExchangePassesLogin` | internal/oidc/storage.go:380-498 | an exchange gives its tokens the login and the scopes of the request exchanged |
| `OidcRuns.NewTokensLiveAsConfigured` | internal/oidc/storage.go:501-531 | a new token expires after the lifetime configured for its own client: an access token between a minute and a day, by default an hour; a refresh token by default thirty days |
| `OidcRuns.CodeWorksAgainIff` | internal/oidc/storage.go:287-377 | after a finished exchange its code works again, at once or ever, if and only if the delete of the auth request was lost and the code's own delete was lost too or the request did not name the code |
| `OidcRuns.OneRefreshTokenPerLogin` | internal/oidc/storage.go:367-498 | two stored refresh tokens never descend from one login, unless a step of the run lost a delete of that very login |
| `OidcRuns.RotationLeavesTwoIff` | internal/oidc/storage.go:489-495 | after a granted rotation the presented token is accepted beside the new one if and only if its delete was lost |
| `OidcRuns.PresentedAgainIff` | internal/oidc/storage.go:489-577 | a refresh token once presented is accepted again, at any later time and under any later configuration, if and only if it was unexpired and the delete that the refusal or rotation should have brought was lost or not reached |
| `OidcRuns.AcceptedLaterIff` | internal/oidc/storage.go:532-577 | a refresh token seen before can be accepted in some continuation if and only if its record is there and unexpired |
| `OidcRuns.InactiveIsFinal` | internal/oidc/storage.go:546-567 | a refresh token presented while its application is gone or inactive yields no token and, unless its delete was lost, is gone in every continuation, also after the application is enabled again |
| `OidcRuns.FailedClientLookupIsFinal` | internal/oidc/storage.go:546-567 | one failed lookup of the application ends a valid refresh token of an active application for good, unless the drop fails too |
| `OidcRuns.RevokedForEverIff` | internal/oidc/storage.go:649-679 | a revocation removes a token for ever if and only if it is the caller's (or nobody's) and its record could be read and deleted; it touches no other token |
| `OidcRuns.InterleavedRotationsFork` | internal/oidc/storage.go:440-577 | two lookups before either issue leave two live refresh tokens |
| `OidcRuns.RunWritesOnlyFresh` | internal/oidc/storage.go:223-679 | no run rewrites or revives a token, a code or an auth request under an id seen before |
| `OidcRuns.LogoutIsFinal` | internal/oidc/storage.go:586-642 | after a logout of (tenant, user, client) no token issued for that triple is ever accepted again, unless an earlier step of the run lost that token's index row or the logout could not delete it |
| `OidcRuns.LogoutSparesOthers` | internal/oidc/storage.go:618-642 | a logout leaves every token of any other triple untouched |
| `OidcRuns.LogoutMissesIff` | internal/oidc/storage.go:586-642 | in every reachable state a logout leaves a live token of its session alive if and only if its index row was lost or its own delete fails |
| `OidcStorage.Storage.CreateAuthRequest` | internal/oidc/storage.go:223-266 | under every fault schedule, the rows under rendered keys come to hold an open request with a ten-minute TTL beside all they held; a failed write changes nothing |
| `OidcStorage.Storage.CompleteAuthRequest` | internal/oidc/storage.go:344-364 | succeeds exactly when the request is there and can be read and written, and then records the full claim set on that row alone |
| `OidcStorage.Storage.SaveAuthCode` | internal/oidc/storage.go:304-332 | maps the code to the request, or fails and changes nothing; notes it on the request unless that read or write fails |
| `OidcStorage.Storage.AuthRequestByCode` | internal/oidc/storage.go:287-301 | finds the request exactly when both rows are there and readable |
| `OidcStorage.Storage.DeleteAuthRequest` | internal/oidc/storage.go:367-377 | removes the request, and the code noted on it, as far as read and deletes succeed, and reports the loss of the request's delete |
| `OidcStorage.Storage.CreateAccessToken` | internal/oidc/storage.go:380-432 | writes record and index row under their rendered keys, field by field and with the client's configured lifetime, with the losses its failing calls bring, or fails and changes nothing |
| `OidcStorage.Storage.StoreRefreshToken` | internal/oidc/storage.go:452-486 | the same of the refresh token |
| `OidcStorage.Storage.CreateAccessAndRefreshTokens` | internal/oidc/storage.go:440-498 | issues the calls for the pair in order, the presented token's deletes last, and brings the machine's tables to the pair with the losses of exactly those calls; a refresh token that cannot be written leaves the access token behind |
| `OidcStorage.Storage.TokenRequestByRefreshToken` | internal/oidc/storage.go:532-577 | grants if and only if the record is there, unexpired and readable and its client can be looked up and is active; a refused record is deleted unless it could not be read or that delete fails |
| `OidcStorage.Storage.ReadAccessToken` | internal/oidc/storage.go:845-885 | userinfo and introspection read a record if and only if it is there and not yet at its expiry |
| `OidcStorage.Storage.TerminateSession` | internal/oidc/storage.go:618-642 | queries the rendered partition and deletes row by row in whatever order the table lists them: the whole logout of that session and no other, but for exactly the rows whose deletes fail |
| `OidcStorage.Storage.RevokeToken` | internal/oidc/storage.go:649-679 | deletes an access or refresh token if and only if it is the calling client's or nobody's; reports an error exactly when that delete fails |
| `OidcStorage.SweptIsTerminated` | internal/oidc/storage.go:618-642 | the listed rows of a session, swept one by one in any order and under any faults, add up to the logout |
| `OidcStorage.ListedAreSessionRows` | internal/oidc/storage.go:618-628 | the query on the rendered partition lists exactly the session's index rows |
| `OidcStorage.LocationsDistinct` | internal/oidc/storage.go:179-195 | rendered keys of different rows never meet, when slugs and subjects hold no '#' |
| `OidcStorage.SessionPartitionsDistinct` | internal/oidc/storage.go:186-195 | index partitions tell sessions apart when slugs and subjects hold no '#' |
| `OidcStorage.SessionPartitionsMeetIff` | internal/oidc/storage.go:192-194 | two users' sessions can share a partition if and only if one's rendered (tenant, subject) head begins the other's |
| `Issuer.IssuerTenantRoundTrip` | internal/oidc/storage.go:207-220 | the slug is read back from its issuer URL if and only if it is not `t` |
| `Issuer.IssuerSpelled` | internal/oidc/handler.go:147-155 | the issuer is base URL, tenant and suffix, whether or not the base ends in a slash |
| `RedirectQuery.ExtractRedirectParams` | internal/saml/slo.go:465-527 | the single pass yields the first fault of the query, or for each name the value of the pair that spells it |
| `RedirectQuery.AcceptedNamesAreUnique` | internal/saml/slo.go:474-500 | in an accepted query at most one pair decodes to a security-relevant name, and it spells it literally |
| `RedirectQuery.QueryAcceptedIff` | internal/saml/slo.go:465-527 | a query is accepted if and only if every name decodes and every security-relevant one is spelled literally, given once and has a value that decodes; other parameters are left alone |
| `RedirectQuery.ExactlyOneMessage` | internal/saml/slo.go:465-527 | an accepted query carries its message in exactly one pair, the one whose raw value is signed and whose decoded value is parsed |
| `RedirectQuery.ConformingQueryReadsBack` | internal/saml/slo.go:465-577 | every query written by the binding, under any encoding, is read back exactly, and its signed octets are the query before "&Signature" |
| `RedirectQuery.ServiceProviderRoundTrip` | internal/saml/slo.go:465-577 | any bytes for message, relay state, algorithm and signature survive escaping and reading |
| `RedirectQuery.EscapeRoundTrip` | internal/saml/slo.go:481-507 | unescaping undoes escaping for every byte string, and escaped values hold no separators |
| `RedirectQuery.OctetsReadBack` | internal/saml/slo.go:572-577 | the reconstructed octets, read again, give the same parameters, for every accepted query |
| `RedirectQuery.OctetsDetermineMessage` | internal/saml/slo.go:572-577 | queries with equal signed octets carry the same message, relay state and algorithm |
| `RedirectQuery.VerifiedIffSigned` | internal/saml/slo.go:541-612 | verification passes if and only if the registered key signed those octets with a hash of its kind, under that algorithm's own URI, SHA-1 only under the opt-in |
| `RedirectQuery.HashForSigAlgIff` | internal/saml/slo.go:619-646 | an algorithm is recognised if and only if it goes by its own URI, and SHA-1 is allowed |
| `RedirectQuery.SHA1OnlyWhenAllowed` | internal/saml/slo.go:619-646 | a SHA-1 algorithm is accepted only under the opt-in |
| `SamlGateway.Authenticate` | internal/saml/slo.go:103-223 | accepts only authentic requests and otherwise names the first check that fails |
| `SamlGateway.AuthenticIff` | internal/saml/slo.go:103-223 | what authentic means: registered provider, at most eight minutes old and three ahead, this tenant's own endpoint, a signature that verifies |
| `SamlGateway.OtherTenantsRequest` | internal/saml/slo.go:196-210 | a request addressed to another tenant's endpoint is never authentic |
| `SamlGateway.Gateway.HandleSLO` | internal/saml/slo.go:102-351 | honours a request if and only if it is authentic and its ID unclaimed; then its ID is marked for eight minutes, its session revoked for nine hours unless the store refuses, and it answers Success if and only if the lookup of other participants works and finds none alive; refusals write nothing |
| `SamlGateway.Gateway.CountOthers` | internal/store/session_store.go:84-103 | positive if and only if a live participant other than the requester exists |
| `SamlGateway.Gateway.MarkSeen` | internal/store/replay_store.go:50-70 | claims an ID once, or says why not, in one conditional write |
| `SamlGateway.Gateway.RevokeSession` | internal/store/session_store.go:109-156 | from then on that session reads as revoked at every instant up to nine hours later and at none after, and every other session reads as before |
| `SamlRuns.AcceptedCookieIsUnrevoked` | internal/saml/session_provider.go:463-506 | a cookie that is accepted is unexpired and has no standing revocation marker |
| `SamlGateway.Gateway.GetSession` | internal/saml/session_provider.go:438-600 | a hand-over decides alone; then a cookie is taken if and only if it is unexpired, of this tenant and provider, and can be seen not to be revoked; on every other path to a session or redirect a seen request ID is refused with 403, an unanswering store with 503, and a granted one is marked for five minutes |
| `SamlGateway.Gateway.NewLogin` | internal/saml/session_provider.go:880-960 | the paths without a session of the browser's own, outcome by outcome; a bearer session lasts as configured |
| `SamlRuns.SessionsAreBound` | internal/saml/session_provider.go:438-506 | in every run a session handed out is unexpired and was minted for the path's tenant and the requested provider |
| `SamlRuns.CookiesComeFromMinting` | internal/saml/session_provider.go:1188-1340 | every cookie of a run comes from one of its mint steps |
| `SamlRuns.MintedLastsAtLeastFiveMinutes` | internal/saml/durations.go:23-35 | every minted session lasts between five minutes and a day |
| `SamlRuns.HonouredAgainMeansIssuedLater` | internal/saml/slo.go:242-262 | a non-empty ID is honoured again only after its mark has lapsed and only for a request issued in a later second than it was first honoured |
| `SamlRuns.LogoutHonouredOnce` | internal/saml/slo.go:47-59 | a request with an ID, first honoured at or after its issue instant, is honoured at most once in the whole run |
| `SamlRuns.LogoutRepeatableIff` | internal/saml/slo.go:390-404 | a request can be honoured twice if and only if it has no ID, or its freshness reaches past the second its mark ends |
| `SamlRuns.EmptyIDRepeats` | internal/saml/slo.go:242-262 | every honoured request without an ID can be honoured again |
| `SamlRuns.AuthnUsedAgainIff` | internal/saml/session_provider.go:929-940 | an AuthnRequest that brought a bearer session or a login redirect brings another at some time, in some continuation of the run, if and only if the five minutes of its mark are over |
| `SamlRuns.FreshUntil` | internal/saml/slo.go:390-404 | a fresh request stays fresh exactly up to its last fresh instant |
| `SamlRuns.RevokedComesBackIff` | internal/store/session_store.go:35-156 | after any honoured logout naming its session, a cookie is accepted in some continuation if and only if it outlives the standing marker, or is unexpired and there is none; when the marker could be written that is: if and only if it outlives nine hours from the logout |
| `SamlRuns.SuccessWithoutMarker` | internal/saml/slo.go:263-351 | a logout whose marker could not be written answers Success although the cookie it revoked is still accepted |
| `SamlRuns.RevocationFinalIff` | internal/saml/durations.go:23-35 | revocation is final for every session of a provider if and only if its duration is configured to nine hours or less |
| `SamlRuns.ShortSessionsComeBackIff` | internal/saml/session_provider.go:463-506 | where sessions are configured to at most nine hours, a revoked cookie comes back only if the marker could not be written and no earlier one covers it |
| `SamlRuns.SweepKeepsParticipants` | internal/store/session_store.go:59-103 | the sweep never changes whom a logout still has to reach |
| `SamlRuns.ReadIsAuthentic` | internal/saml/slo.go:102-223 | the request a run step honours is the one the handler's contract speaks of |
| `CustomLogin.LoginFlows.Create` | internal/store/pending_login_store.go:54-67 | writes the row and the cookie of a flow; refuses an empty flow ID |
| `CustomLogin.LoginFlows.Get` | internal/store/pending_login_store.go:71-80 | returns an unexpired row |
| `CustomLogin.LoginFlows.CompleteSAML` | internal/saml/idp.go:357-417 | logs in if and only if the token is good, the row there, unexpired and of this protocol and tenant, and the cookie of this flow and at most 600 seconds old; each failing check has its own refusal; the row goes once it has been found, unless its delete fails |
| `CustomLogin.LoginFlows.CompleteOIDC` | internal/oidc/login.go:560-665 | the same, but the row goes only once the tenant has been found to match |
| `CustomLogin.LoginsBelongToTheirFlow` | internal/saml/session_provider.go:90-110 | in every run a login through a flow comes with a good token and is for its protocol, tenant and target, within 600 seconds, with the cookie handed out then |
| `CustomLogin.UnboundAttemptTouchesNothing` | internal/oidc/login.go:78-98 | an attempt that fails the binding check changes no row |
| `CustomLogin.UsedAgainIffDeleteFailed` | internal/saml/session_provider.go:1061-1075 | a flow that has logged in can do so again if and only if its delete failed |
| `CustomLogin.WrongTenantConsumesSAMLOnly` | internal/saml/idp.go:395-414 | on the wrong tenant's path the SAML endpoint uses the flow up and the OIDC endpoint does not |
| `CertStore.CertStore.CheckCertRotation` | internal/crypto/cert_rotation.go:38-128 | for every fault schedule: which action is taken exactly when, what it leaves in each slot, and the remaining life it reports |
| `CertStore.CertStore.PromoteNextToActive` | internal/crypto/cert_store.go:142-151 | succeeds if and only if the slot is filled and three calls succeed; then its certificate is the active one and the slot empty; a failed delete leaves it in both |
| `CertStore.CertStore.PromoteBackupToActive` | internal/crypto/cert_store.go:157-166 | the same for the backup slot; the other slot is untouched |
| `CertStore.StandbyTakesOver` | internal/crypto/cert_store.go:157-166 | a leaf imported as the standby and promoted, no call failing, is what the signer uses from then on, with its own key |
| `CertStore.CertStore.ImportCert` | internal/service/cert_manager.go:98-139 | succeeds if and only if the leaf wraps the key of its role and the write succeeds; it is then stored as CA-issued in that role's slot alone |
| `CertStore.ImportedIsKept` | internal/crypto/cert_rotation.go:78-87 | an imported active certificate is left in place by every run of checks no call of which fails |
| `CertStore.CertStore.GetAllCerts` | internal/crypto/cert_store.go:71-95 | publishes the certificate of every slot that can be read, whatever happens to the others, each serial once, the active one first, and no other |
| `CertStore.RunKeepsKeys` | internal/service/cert_manager.go:66-144 | over every run and fault pattern each slot's certificate wraps the key its record names |
| `CertStore.SelectedSignerMatches` | internal/crypto/cert_signer.go:19-34 | the selected signer always matches the active certificate |
| `CertStore.AddBackupVerificationKey` | internal/oidc/verification_keys.go:15-31 | serves the active key and every other configured key that loads |
| `CertStore.ServedKeysUnchangedByPromotion` | internal/oidc/storage.go:716-737 | the served key set is the same whichever configured key is active |
| `CertStore.NewActiveWasPublished` | internal/crypto/cert_store.go:71-166 | a certificate becomes active only if it was published before, except the first and a direct import |
| `CertStore.CheckReplacesCAIssuedIff` | internal/crypto/cert_rotation.go:78-127 | a check replaces a CA-issued active certificate if and only if its record read fails and the promotion it guards goes through |
| `CertStore.FaultFreeCheckKeepsCAIssued` | internal/crypto/cert_rotation.go:78-87 | a fault-free check leaves the slots of a CA-issued active certificate alone |
| `CertStore.CheckLeavesStaleNextIff` | internal/crypto/cert_rotation.go:38-128 | over every fault schedule: a check leaves the active certificate staged as its own successor if and only if a promotion was due and of its calls only the delete after the write fails |
| `CertStore.StaleNextPromotesItself` | internal/crypto/cert_rotation.go:108-127 | the next due promotion then only clears the slot |
| `CertSchedule.NeverExpiresIff` | internal/crypto/cert_rotation.go:67-127 | the active certificate never expires on any schedule of checks at most P days apart if and only if P fits between promotion threshold and expiry and twice into the window |
| `CertSchedule.FrequentChecksNeverExpire` | internal/crypto/cert_rotation.go:67-127 | the safe direction, for every start outside the window and every schedule |
| `CertSchedule.PromotedWasPublished` | internal/crypto/cert_rotation.go:108-127 | every promoted certificate was staged by an earlier check and published for more than the delay less one gap; the new active one starts outside the window |
| `CertSchedule.TwoGapsTooLong` | internal/crypto/cert_rotation.go:67-110 | two gaps longer than the window let a certificate expire |
| `CertSchedule.LastGapTooLong` | internal/crypto/cert_rotation.go:108-127 | a gap longer than the threshold lets a certificate expire |
| `CertSchedule.SafeAfterStaleIff` | internal/crypto/cert_rotation.go:67-127 | starting from a certificate staged as its own successor, the active certificate never expires on any schedule of checks at most P days apart if and only if three gaps fit between promotion threshold and expiry |
| `CertSchedule.SuccessorPublishedForOneGap` | internal/crypto/cert_rotation.go:108-127 | and its real successor is promoted by the very next check after it was staged, whatever the promotion delay |
| `ClaimRelease.MappedClaims` | internal/oidc/storage.go:1012-1080 | the last mapping to a target that yields a value decides it; standard and empty targets are never released; nothing when the mappings cannot be loaded |
| `ClaimRelease.MappingYieldsClaim` | internal/oidc/storage.go:1040-1080 | what each kind of mapping yields of a token's user: a field or its default, the roles of the groups, a constant, or nothing |
| `ClaimRelease.SubjectFieldsRead` | internal/oidc/storage.go:1085-1101 | what each source reads of a token's user |
| `ClaimRelease.GroupsMappedInOrder` | internal/oidc/storage.go:1030-1062 | each group yields its role, in the groups' order |
| `ClaimRelease.MappedAttributes` | internal/saml/assertion_maker.go:121-201 | the attributes of the mappings that yield something, in order; none when a list cannot be loaded |
| `ClaimRelease.AttributesInOrder` | internal/saml/assertion_maker.go:150-201 | each mapping that yields something becomes one attribute of that name, in order, and no other does |
| `ClaimRelease.MappingYieldsAttribute` | internal/saml/assertion_maker.go:150-201 | what each kind of mapping yields of a SAML session |
| `ClaimRelease.SessionFieldsRead` | internal/saml/assertion_maker.go:205-226 | what each source reads of a SAML session |
| `ClaimRelease.BuildOIDCPreview` | internal/service/preview.go:139-180 | each target, reserved or not, gets the value of the last mapping to it that yields one |
| `ClaimRelease.BuildRoleMap` | internal/oidc/storage.go:1030-1038 | the last role mapping of each group counts, and no other group is mapped |
| `ClaimRelease.RolesLostAgreeIff` | internal/saml/assertion_maker.go:121-160 | when the role mappings cannot be loaded SAML releases nothing, and OIDC likewise if and only if no mapping to a releasable target yields a value without them |
| `ClaimRelease.RolesLostValue` | internal/oidc/storage.go:1030-1080 | without role mappings only group mappings fall silent; every other mapping yields what it yields with them |
| `ClaimRelease.OtherSourcesAgree` | internal/saml/assertion_maker.go:205-226 | the two field resolvers agree on every other source |
| `ClaimRelease.MappingAgreesIff` | internal/oidc/storage.go:1085-1101 | a mapping releases the same over SAML and OIDC for all users if and only if it does not read `name`, `common_name` or a `custom:` source |
| `ClaimRelease.OidcClaimsAreFoldOfSaml` | internal/oidc/storage.go:1040-1080 | target by target the OIDC claims are the last-wins reading of the SAML attribute list |
| `ClaimRelease.PreviewAgreesIff` | internal/service/preview.go:183-188 | a mapping is previewed as released for all test users if and only if it does not read `username` |
| `ClaimRelease.PreviewIsTokenForReleasable` | internal/service/preview.go:139-180 | over a whole list the preview shows every claim as the token would carry it |
| `MemoryDB.FlatMapSimulatesTable` | internal/store/memorydb.go:30-129 | over every sequence of operations on '#'-free tenant partitions the flat map answers as a table keyed by (PK, SK) |
| `MemoryDB.FlatInjective` | internal/store/memorydb.go:30-106 | flat keys of such partitions never meet, and a partition's rows are those with its prefix |
| `MemoryDB.PartitionsCollideIff` | internal/store/memorydb.go:47-65 | a row of one partition can block a conditional write in another if and only if they are the same or one key and a '#' begin the other |
| `MemoryDB.CollisionsDisagree` | internal/store/memorydb.go:47-65 | and there a table keyed by (PK, SK) would have written |
| `MemoryDB.MemoryDB.Put` | internal/store/memorydb.go:30-45 | as a table keyed by (PK, SK) that it stands for would; refuses an empty partition key |
| `MemoryDB.MemoryDB.PutIfNotExists` | internal/store/memorydb.go:47-65 | writes only when that table has no such row |
| `MemoryDB.MemoryDB.Get` | internal/store/memorydb.go:67-81 | that table's row, or not found |
| `MemoryDB.MemoryDB.Delete` | internal/store/memorydb.go:125-129 | as on that table |
| `MemoryDB.MemoryDB.Query` | internal/store/memorydb.go:83-106 | ranging in any order, exactly that table's matching rows, each once |
| `SignedCookie.CookieRoundTrip` | internal/crypto/signed_cookie.go:124-173 | decoding gives back every byte string that was encoded |
| `SignedCookie.AcceptedIff` | internal/crypto/signed_cookie.go:144-173 | a cookie is accepted if and only if it is this key id, a payload that opens, and this signer's signature over the two; what is read is what the payload opens to |
| `SignedCookie.OtherSignersRefuse` | internal/crypto/signed_cookie.go:81-173 | a cookie made for another purpose or under another root key is refused |
| `SignedCookie.DerivationInputsDistinct` | internal/crypto/signed_cookie.go:110-117 | the derivation inputs of 32-byte keys, uses and purposes are pairwise distinct |
| `SignedCookie.Base64RoundTrip` | internal/crypto/signed_cookie.go:133-166 | unpadded base64url (section 5 of RFC 4648) decodes what it encodes |
| `SignedCookie.NewSignerEnabled` | internal/crypto/signed_cookie.go:81-105 | a 32-byte key always gives a usable signer |
| `SignedCookie.SignerOrNothing` | internal/crypto/signed_cookie.go:81-173 | a signer needs a purpose and a 32-byte key; without a key nothing is signed and nothing accepted |

## Left out

- KMS, X.509, PEM, RSA/ECDSA, SHA-256, HMAC, AES-GCM: ideal functions. DEFLATE, XML and JSON: typed messages.
- DynamoDB's eventual consistency on the index, and writes that fail but take effect.
- Role mappings in the claim store: the same algorithm as claim mappings under another prefix, which `Keys.RolePrefixSelects` covers.
- Auth-request fields that no token depends on (redirect URI, state, nonce, PKCE challenge), and client authentication at the token endpoint.
- The zero-value guard on a refresh token's expiry: stored tokens always have one.
- Token exchange with Cognito, JWKS fetching and verifier caching: a bearer or login token arrives with its verdict.
- SamlGateway.Gateway.GetSession: audit entries and cookie attributes are not modelled.
- CustomLogin.LoginFlows.CompleteSAML: concurrent completions of one flow are not interleaved, since each handler is one step.
- CertStore.CertStore.CheckCertRotation: the float rounding of day counts; stored certificates are always readable as PEM.
- OidcStorage.Storage: the application store it asks for clients answers from a map, or fails; the store itself is AppStore's.
- CertSchedule: administrators and faults; those are in CertStore, without clocks.
- The PKCE callback, the IdP-initiated endpoint's origin checks and metadata key descriptors: single-branch or presentational; the sessions they mint are Mint steps followed by a hand-over.
- The legacy single-tenant path, management API, settings, analytics, audit, onboarding, console, scripts, Terraform.
- The path-boundary and origin predicates of the tenant model: easy and unused by the machines here.
- buildSAMLPreview: the same evaluation as MappedAttributes followed by XML text.
- MemoryDB's reflection helpers, its index query and its scan by prefix.
