# Bearer tokens and response envelopes of the nest-tutorial backend, in Dafny

This project models two parts of the NestJS tutorial backend and proves properties of them.

**The bearer-token lifecycle.** A user trades a username and password for an opaque token string. The string is the dash-stripped uuid followed by as many random hex digits. The bearer strategy accepts a token until its creation time plus the time-to-live has passed, then resolves the token to the user whose one-to-one join column names it. The token controller issues, refreshes and invalidates tokens. Password-reset tokens live in a table of their own.

The store is `CredentialStore.Store`: a class whose map fields are the user, token and reset-token tables, plus the autoincrement counters. Each repository primitive is specified by a pure step on a `Tables` value:
- `AfterTokenDelete`, which includes ON DELETE SET NULL;
- `AfterTokenSave`;
- `AfterUserUpdate`;
- `AfterResetTokenSave`.

The `User` entity is a class, because the services assign its `token` and `ResetPasswordToken` properties in place. `Token` and `ResetPasswordToken` are values. The column, uniqueness and link constraints the entities declare are `CredentialStore.Schema`. The lemmas show which operations keep the schema. They also show which operations keep `NoOrphanTokens`, the property that every token row is some user's.

**Response shaping and pagination.** `AbstractResourceRepository` counts and selects the rows a criterion accepts and computes page numbers: a ceiling division and a clamp. Its table is a sequence of rows in storage order, and a criterion is a predicate on rows. The envelope interceptor wraps every emitted value in an `Envelope`, a class with three setters, built by the envelope service. It turns every thrown value into an HTTP exception: the body is the mapped envelope, and the status is the error's own when it is truthy, else 500.

The model follows the code, including in three places where its behaviour is worth stating outright:
- POST /auth/token does not delete the user's previous token, although `createToken` is commented "Remove existing token if necessary" (project/src/auth/service/token.service.ts:20). See Findings.
- `findByPaginated` runs its query with the caller's unclamped offset and limit, and starts the current page at the limit rather than at a page derived from the offset. It also passes the count and the current page to the `PaginatedResources` constructor in the slots its parameters name `page` and `nbResults` (project/src/common/api/resource/paginated-resources.ts:10-16). See Findings.
- With no matching rows, the page count is 0, the current page is 0 and the computed offset is −limit; the page count is not floored at 1.

## Model

| member | source | states |
|---|---|---|
| CredentialStore.AfterTokenDelete | project/src/user/entity/user.entity.ts:26-31 | deleting a token row removes only that row; every user whose join column named it gets NULL there, and every other user row is unchanged |
| CredentialStore.TokenTableOk | project/src/auth/entity/token.entity.ts:5-13 | token rows are keyed by their generated id, below the autoincrement counter; strings are unique and at most 128 characters |
| CredentialStore.UserTableOk | project/src/user/entity/user.entity.ts:8-24 | user rows are keyed by their id; columns fit their lengths; username, email and password are each unique |
| CredentialStore.TokenLinkOk | project/src/user/entity/user.entity.ts:26-31 | the one-to-one join column: no two users hold the same token, and a non-null join column names a stored token |
| CredentialStore.ResetTableOk | project/src/user/service/reset-password.service.ts:23-29 | reset rows are keyed by their id below their counter, strings are unique, and a linked user exists |
| CredentialStore.Schema | project/src/user/entity/user.entity.ts:6-32 | the conjunction of the four table constraints above |
| CredentialStore.FindFirst | project/src/auth/service/token.service.ts:31 | `findOne` on a non-key column: a matching row with the least key, and none exactly when no row matches |
| CredentialStore.TokenDeleteKeepsSchema | project/src/auth/entity/token.entity.ts:5-18 | a token delete keeps every column, uniqueness and one-to-one link constraint |
| CredentialStore.TokenDeleteIdempotent | project/src/auth/service/token.service.ts:36-40 | deleting the same id twice leaves the store as deleting it once |
| CredentialStore.AfterTokenSave | project/src/auth/service/token.service.ts:27 | a saved token gets the next generated id, and it is the only row added |
| CredentialStore.TokenSaveKeepsSchema | project/src/auth/entity/token.entity.ts:8-13 | saving a string no row holds, of at most 128 characters, keeps every constraint |
| CredentialStore.AfterUserUpdate | project/src/user/user.service.ts:42-44 | update rewrites only the row with the entity's id; the join column changes only when the entity carries a token; a missing id updates nothing |
| CredentialStore.AfterResetTokenSave | project/src/user/service/reset-password.service.ts:23-29 | a saved reset token gets the next id and no user; the user and token tables are untouched |
| CredentialStore.ResetTokenSaveKeepsSchema | project/src/user/service/reset-password.service.ts:23-29 | saving an unused reset string keeps every constraint |
| CredentialStore.WriteBackKeepsUserTable | project/src/user/entity/user.entity.ts:8-24 | writing back a loaded user keeps ids, column lengths and the uniqueness of username, email and password |
| CredentialStore.WriteBackKeepsTokenLink | project/src/user/entity/user.entity.ts:26-31 | writing back a user whose new token is stored and held by no other user keeps the one-to-one link |
| CredentialStore.WriteBackKeepsSchema | project/src/user/entity/user.entity.ts:6-32 | writing back a loaded user with a stored, unclaimed token keeps every constraint |
| CredentialStore.Store.DeleteTokenRow | project/src/auth/service/token.service.ts:37 | the store's new tables are the delete step applied to the old ones |
| CredentialStore.Store.SaveTokenRow | project/src/auth/service/token.service.ts:27 | the new tables and the returned row are the save step's |
| CredentialStore.Store.UpdateUserRow | project/src/user/user.service.ts:43 | the new tables are the update step applied to the old ones |
| CredentialStore.Store.SaveResetTokenRow | project/src/user/service/reset-password.service.ts:28 | the new tables and the returned row are the reset-token save step's |
| UserEntity.User.Load | project/src/user/entity/user.entity.ts:6-32 | an entity materialised from a row carries its columns, the token relation as loaded, and no reset token |
| UserEntity.User.Patch | project/src/user/user.service.ts:43 | what `update(user.id, user)` writes: the entity's id and columns, and the join column exactly when the token relation is loaded |
| TokenService.StripDashes | project/src/auth/service/token.service.ts:43 | the result keeps exactly the input's non-dash characters and is no longer than the input |
| TokenService.StripDashesAppend | project/src/auth/service/token.service.ts:43 | stripping dashes distributes over concatenation |
| TokenService.GenerateUniqueToken | project/src/auth/service/token.service.ts:42-47 | the token is twice as long as the dash-stripped uuid; its first half is that uuid, with no dash; its second half is hex |
| TokenService.UuidPrefixStripped | project/src/auth/service/token.service.ts:43 | stripping a canonical uuid's prefix of length i removes exactly the dashes below i |
| TokenService.GeneratedTokenFitsColumn | project/src/auth/service/token.service.ts:42-47 | from a canonical uuid the token is 64 hex digits, within the 128-character column |
| TokenService.CreateTokenStep | project/src/auth/service/token.service.ts:15-28 | the entity's current token is deleted (join columns nulled), then one new row is saved; no other row or user changes |
| TokenService.CreateTokenKeepsSchema | project/src/auth/service/token.service.ts:15-28 | with an unused string createToken keeps every constraint, and the new id is fresh |
| TokenService.CreateTokenTwice | project/src/auth/service/token.service.ts:15-28 | after two createToken calls on one entity, the first token is gone, the second is stored, and nothing else was removed except the original token |
| TokenService.CreateToken | project/src/auth/service/token.service.ts:15-28 | the store changes as the createToken step says, the entity's token becomes the saved row, and its reset token is untouched |
| TokenService.GetToken | project/src/auth/service/token.service.ts:30-34 | a stored row with that string is found; none is returned exactly when no row has it |
| TokenService.GetTokenFindsRow | project/src/auth/service/token.service.ts:30-34 | under the schema, looking up a stored string yields its row |
| TokenService.DeleteToken | project/src/auth/service/token.service.ts:36-40 | answers true whether or not the id existed, and applies the delete step |
| UserService.GetUserByUsernameAndPassword | project/src/user/user.service.ts:13-21 | a user whose username and password both equal the arguments, and none exactly when no such user exists |
| UserService.GetUserByToken | project/src/user/user.service.ts:23-30 | the user whose join column names a stored token; none when the row is gone or no user points at it |
| UserService.GetUserByTokenFindsOwner | project/src/user/user.service.ts:23-30 | under the schema, the user found is the one whose join column names the token |
| UserService.UpdateUser | project/src/user/user.service.ts:42-44 | the store changes by the update of the entity's columns and loaded token |
| DefaultStrategy.Validate | project/src/auth/strategy/default.ts:17-33 | unauthorized exactly when no row has the string, expired exactly when the found token is past its lifetime, otherwise the token and the user it resolves to |
| DefaultStrategy.IsExpired | project/src/auth/strategy/default.ts:25 | a token is expired when its creation time plus the time-to-live is strictly less than now |
| DefaultStrategy.NotExpiredAtDeadline | project/src/auth/strategy/default.ts:25 | a token is accepted at exactly creation time plus lifetime, and expired one unit later |
| DefaultStrategy.AtMostOneLiveTokenPerUser | project/src/auth/strategy/default.ts:30-32 | under the schema, two strings that authenticate as the same user are the same string |
| ResetPasswordService.CreateResetPasswordToken | project/src/user/service/reset-password.service.ts:23-29 | one reset row with the generated string is saved; nothing else changes |
| ResetPasswordService.CreateResetPasswordTokenForUser | project/src/user/service/reset-password.service.ts:38-46 | the same entity is returned, now holding the new reset row, and written back; its token is untouched |
| ResetPasswordService.FindUserByResetPasswordToken | project/src/user/service/reset-password.service.ts:55-60 | the reset row with that string and its user if stored; none exactly when no row has the string |
| ResetPasswordService.ResetTokenForUserIsNotLinked | project/src/user/service/reset-password.service.ts:38-46 | after the reset flow the token table is unchanged, and the new reset row is found with no user, because the entity has no column for the link |
| TokenController.Authenticate | project/src/auth/controller/token.controller.ts:37-38 | the guard admits exactly a validated token that resolves to a user; it rejects with 401, "Token has expired" exactly for an expired token |
| TokenController.TokenFlow | project/src/auth/controller/token.controller.ts:17-35 | unknown credentials give 401 "Invalid username and/or password" and leave the store alone; otherwise the result is the new token, added to the token table |
| TokenController.TokenFlowPointsUserAtNewToken | project/src/auth/controller/token.controller.ts:21-34 | after a successful POST /auth/token the credential user's join column names the new token, its other columns are unchanged, and every other user row is as it was |
| TokenController.RefreshFlow | project/src/auth/controller/token.controller.ts:37-47 | a rejected bearer leaves the store alone; otherwise the answer is the newly saved token |
| TokenController.InvalidateFlow | project/src/auth/controller/token.controller.ts:49-57 | a rejected bearer leaves the store alone; otherwise the answer is true |
| TokenController.IssueToken | project/src/auth/controller/token.controller.ts:17-35 | the handler's store change and answer are the token flow's |
| TokenController.Refresh | project/src/auth/controller/token.controller.ts:37-47 | the handler's store change and answer are the refresh flow's |
| TokenController.Invalidate | project/src/auth/controller/token.controller.ts:49-57 | the handler's store change and answer are the invalidate flow's |
| TokenController.RotateKeepsSchema | project/src/auth/controller/token.controller.ts:42-46 | createToken then updateUser on a user whose relation holds its own token keeps every constraint |
| TokenController.RotateKeepsOwners | project/src/auth/controller/token.controller.ts:42-46 | the same rotation leaves no token without an owner if there was none |
| TokenController.RotateReplacesToken | project/src/auth/controller/token.controller.ts:42-46 | after the rotation the user points at the new token, the old one is gone, and the table grows by at most one row |
| TokenController.AuthenticatedRowsStored | project/src/auth/strategy/default.ts:30-32 | the user and token the guard admits are stored rows; the token is the one the user's join column names, and its string is the bearer |
| TokenController.RefreshKeepsInvariants | project/src/auth/controller/token.controller.ts:37-47 | refresh keeps every constraint, and keeps every token owned |
| TokenController.RefreshRevokesBearer | project/src/auth/controller/token.controller.ts:37-47 | after a successful refresh the old bearer matches no row, and the token table keeps its size |
| TokenController.RefreshedTokenAuthenticates | project/src/auth/controller/token.controller.ts:37-47 | with a non-negative lifetime the refreshed token authenticates the same user at once |
| TokenController.InvalidateKeepsInvariants | project/src/auth/controller/token.controller.ts:49-57 | invalidate keeps every constraint, and keeps every token owned |
| TokenController.InvalidateRevokesToken | project/src/auth/controller/token.controller.ts:49-57 | after a successful invalidate the answer is true, the bearer is refused at every later time, the user holds no token, and only that row is deleted |
| TokenController.TokenFlowOrphansPreviousToken | project/src/auth/controller/token.controller.ts:21-34 | as written, a user who already holds a token keeps that row in the table with no user pointing at it, so some token is left without an owner |
| TokenController.TokenFlowOrphanExample | project/src/auth/controller/token.controller.ts:21-34 | a one-user store that meets every constraint, where issuing a token leaves an ownerless token |
| TokenController.TokenFlowWithRelation | project/src/auth/controller/token.controller.ts:17-35 | the corrected flow, with the token relation loaded: unknown credentials give 401 and leave the store alone |
| TokenController.TokenFlowWithRelationKeepsInvariants | project/src/auth/controller/token.controller.ts:17-35 | the corrected flow keeps every constraint, and keeps every token owned |
| TokenController.TokenFlowWithRelationReplacesToken | project/src/auth/controller/token.controller.ts:17-35 | in the corrected flow the user's previous token is deleted and the user points at the new one |
| ResourceRepository.Filter | project/src/common/api/resource/abstract-resource-repository.ts:17-18 | every selected row is in the table and accepted, every accepted row is selected, and there are no more rows than the table; order and multiplicity are fixed by the two lemmas below |
| ResourceRepository.FilterSingleRow | project/src/common/api/resource/abstract-resource-repository.ts:17-18 | from a one-row table the row is selected exactly when the criterion accepts it |
| ResourceRepository.FilterAppend | project/src/common/api/resource/abstract-resource-repository.ts:17-18 | selecting from two tables in sequence gives the two selections in sequence, so rows keep their storage order and multiplicity |
| ResourceRepository.FilterAcceptAll | project/src/common/api/resource/abstract-resource-repository.ts:17-18 | a criterion accepting every row selects the whole table in storage order |
| ResourceRepository.CountResource | project/src/common/api/resource/abstract-resource-repository.ts:54-62 | the count equals the number of rows the query selects; it is 0 exactly when the criterion accepts no row |
| ResourceRepository.Window | project/src/common/api/resource/abstract-resource-repository.ts:20-21 | skip then take: the rows from the offset on, at most limit of them, none when the offset is past the end |
| ResourceRepository.FindOneById | project/src/common/api/resource/abstract-resource-repository.ts:12-14 | a row carrying the id, and none exactly when no row carries it |
| ResourceRepository.FindOneByIdFindsKey | project/src/common/api/resource/abstract-resource-repository.ts:12-14 | with unique ids the row found is exactly the row with that id |
| ResourceRepository.CeilDiv | project/src/common/api/resource/abstract-resource-repository.ts:26 | the least page count whose pages cover all rows: (r−1)·limit < count ≤ r·limit |
| ResourceRepository.ClampPage | project/src/common/api/resource/abstract-resource-repository.ts:28-34 | the current page is the smaller of the requested page and the page count, and the offset is always (page−1)·limit |
| ResourceRepository.ClampFiresIff | project/src/common/api/resource/abstract-resource-repository.ts:31-34 | the clamp fires exactly when the requested page lies past the last page |
| ResourceRepository.FindByPaginated | project/src/common/api/resource/abstract-resource-repository.ts:16-45 | the rows are the unclamped window; the fields receive, in order, the count, the page count, min(limit, page count) and the limit; no results means 0 pages and page 0 |
| ResourceRepository.OutOfRangeOffsetGivesEmptyPage | project/src/common/api/resource/abstract-resource-repository.ts:17-22 | as written, an offset at or past the number of matches gives an empty page although at least one page exists |
| ResourceRepository.FindByPaginatedClamped | project/src/common/api/resource/abstract-resource-repository.ts:16-45 | the corrected page: the requested page follows from the offset and is clamped; with results, the page is non-empty and queried at the clamped offset; each counter goes to the field its name says |
| PaginationEnvelopeDto.NewPaginationEnvelope | project/src/common/api/dto/pagination-envelope.dto.ts:8-29 | a new pagination block is page 1 of 1, with one result and fifty per page |
| ErrorEnvelopeDto.CodeOrInternalServerError | project/src/common/api/dto/error-envelope.dto.ts:40 | the given code when present and non-zero, else 500; never 0 |
| ErrorEnvelopeDto.NewErrorEnvelope | project/src/common/api/dto/error-envelope.dto.ts:33-43 | the message replaces the default; the code defaults to 500 when absent or 0, and is 500 only then or when given as 500; data and trace are kept as given |
| EnvelopeDto.Envelope.constructor | project/src/common/api/dto/envelope.dto.ts:11-25 | a new envelope has payload, pagination and error all null |
| EnvelopeDto.Envelope.SetData | project/src/common/api/dto/envelope.dto.ts:32-34 | replaces the payload and nothing else |
| EnvelopeDto.Envelope.SetPagination | project/src/common/api/dto/envelope.dto.ts:41-43 | replaces the pagination block and nothing else |
| EnvelopeDto.Envelope.SetError | project/src/common/api/dto/envelope.dto.ts:50-52 | replaces the error block and nothing else |
| EnvelopeService.GetEnvelope | project/src/common/api/service/envelope.service.ts:33-35 | a fresh, all-null envelope |
| EnvelopeService.MapSingleResource | project/src/common/api/service/envelope.service.ts:7-13 | a fresh envelope whose payload is the value, with pagination and error null |
| EnvelopeService.MapMultipleResources | project/src/common/api/service/envelope.service.ts:15-23 | a fresh envelope whose payload is the whole page record; pagination is never set |
| EnvelopeService.MapErrorOrException | project/src/common/api/service/envelope.service.ts:25-31 | a fresh envelope with payload, pagination and error all null, whatever the error |
| EnvelopeInterceptor.MappedBody | project/src/common/api/interceptor/envelope-interceptor.ts:35-42 | pagination and error are never set; a thrown error maps to a null payload, and every other value is kept as the payload |
| EnvelopeInterceptor.MapDataToApiEnvelope | project/src/common/api/interceptor/envelope-interceptor.ts:35-42 | the page test, then the error test, then a single resource; the fresh envelope's body is the mapped body |
| EnvelopeInterceptor.ErrorStatus | project/src/common/api/interceptor/envelope-interceptor.ts:27 | the error's own status when present and non-zero, otherwise 500; never 0 |
| EnvelopeInterceptor.ErrorStatusMatchesErrorEnvelope | project/src/common/api/interceptor/envelope-interceptor.ts:27 | the interceptor's status, defined by its own case split on the thrown value, equals the code of an error envelope built from the same status (error-envelope.dto.ts:40) |
| EnvelopeInterceptor.Intercept | project/src/common/api/interceptor/envelope-interceptor.ts:17-33 | an emitted value is answered with its mapped envelope; a thrown value becomes an HTTP exception whose body is its mapped envelope and whose status is the error status |

## Left out

- Asynchrony, Promises and the RxJS `Observable` plumbing of the interceptor. Each request is modelled as one sequential run over the store, so the race between concurrent refreshes (delete, insert and update are not atomic) is not modelled.
- TypeORM internals: the query builder, the criteria language and raw-count parsing. A criterion is a predicate on rows, and the count is derived from the same rows the query selects. The `order` clause of the paginated query is not modelled; rows come back in storage order.
- The `uuid` and `random-hex-string` libraries, the clock and `process.env`. The uuid string, the hex generator, "now" and the token lifetime are parameters. Token dates are integer milliseconds; their round trip through a text column is not modelled.
- The bcrypt password encoder (foreign crypto) and `createDummyUser`.
- The `ResetPasswordToken` entity file is not part of this model. Its row is modelled as an id, a unique string and an optional user, with no other constraints.
- Nest modules, dependency injection, bootstrap and the validation-decorator DTOs.
- ResetPasswordService is not registered as a provider in any module (project/src/user/user.module.ts:13-18, project/src/auth/auth.module.ts:21-24), so nothing in the application can inject it. The model treats it as callable.
- ResetPasswordService.ResetTokenForUserIsNotLinked: assumes that `repository.update(user.id, user)` ignores the `ResetPasswordToken` property, which the `User` entity does not declare. Depending on the TypeORM version, `update` may instead reject an unknown property; that failure is not modelled.
- TokenService.CreateToken: requires the generated string to be unused. A collision would make the save fail on the unique column; that failure is not modelled.
- TokenController.IssueToken: requires the generated string to be unused, for the same reason.
- TokenController.Refresh: requires the generated string to be unused, for the same reason.
- ResetPasswordService.CreateResetPasswordToken: requires the generated reset string to be unused, for the same reason.
- ResetPasswordService.CreateResetPasswordTokenForUser: requires the generated reset string to be unused, for the same reason.
- ResourceRepository.FindByPaginated: requires a positive limit and a non-negative offset. JavaScript gives Infinity or NaN pages for a zero limit, and the store decides what a negative skip means; neither is modelled.
- ResourceRepository.FindByPaginatedClamped: requires a positive limit and a non-negative offset, like the code it corrects.
- ResourceRepository.CeilDiv: exact integer ceiling. Floating-point rounding of `Math.ceil(count / limit)` for huge counts is not modelled.
- EnvelopeInterceptor.ErrorStatus: only thrown errors carry a status. A thrown value that is not an `Error` but has a `status` property, and non-numeric or NaN statuses, are not modelled; such values get 500.
- The `data` and `trace` of an error envelope are `any` in the source; they are modelled as optional text.
- The field defaults of `PaginatedResources` (page 1, 1 page, 0 results, the environment's default limit) are always overwritten by its constructor, so the record has none.
- The `instanceof` tests of the dispatch are modelled by the cases of `EnvelopeDto.Value`. Those cases are disjoint, so the precedence of the page test over the error test cannot be observed.

## Findings

| source | as written | input that shows it | evidently intended | confidence | as-written member | corrected member |
|---|---|---|---|---|---|---|
| project/src/auth/controller/token.controller.ts:21-34 | the user is loaded by credentials without its token relation, so `createToken` sees no current token and never deletes it; the update then points the user at the new token, and the old row stays with no owner | a store with one user, alice, holding token 1 ("aa"); POST /auth/token with alice's credentials leaves token 1 stored and referenced by nobody | the previous token is removed, as the comment in `createToken` says it should be, and every token keeps an owner | medium; not executed | TokenController.TokenFlow, TokenController.TokenFlowOrphansPreviousToken, TokenController.TokenFlowOrphanExample | TokenController.TokenFlowWithRelation, TokenController.TokenFlowWithRelationKeepsInvariants, TokenController.TokenFlowWithRelationReplacesToken |
| project/src/common/api/resource/abstract-resource-repository.ts:27-44 | the current page starts at the limit, the clamped offset is never used (the query skips the caller's offset), and the counters go to the wrong fields (the count into `page`, the current page into `nbResults`) | 95 matching rows, offset 200, limit 50: 2 pages exist but the page holds no rows, and `page` reads 95 | the requested page is offset / limit + 1, clamped to the last page, and the query runs at the clamped offset: page 2 with 45 rows, page 2 of 2, 95 results | medium; not executed | ResourceRepository.FindByPaginated, ResourceRepository.OutOfRangeOffsetGivesEmptyPage | ResourceRepository.FindByPaginatedClamped |
