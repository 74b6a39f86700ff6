# sprog core, modelled in Dafny

sprog is a small web back end written in Rust, plus a Game-of-Life page compiled to WebAssembly.
The back end comes in two generations of one design:

- `glonk` is single-tenant. It stores users and notes. Every signed-in user may update or delete every record.
- `lib-glonk` plus `lib-grundit` is multi-tenant. It stores users, notes, comments and punches. The signed-in
  user's id travels as an `owner-id` header, and validation and storage are meant to scope each request to
  that owner.

The model covers the part of both generations that decides things:

- **The criteria algebra.** `Equals`, `Contains`, `And` and `Or` render a SQL fragment plus an ordered list of
  bound values (modules `Criteria` and `Like`).
- **The request shapes, one per record kind.** Each has field-by-field validation in a fixed order, the present
  columns, placeholders and positional binders, the table/id/owner descriptors, and the query-key parsers
  (`Validation`, `Shape`, `NoteKind`, `CommentKind`, `PunchKind`, `UserKind`, `GlonkUserKind`, `Kinds`,
  `GlonkTypes`).
- **The SQLite store.** `create`, `update`, `get`, `get_queries` and `delete` work over an abstract table of
  rows. Each returns its effect on the table and its error outcome (`Store`, `StoreFacts`, `GlonkStore`). The
  statement text each one prepares is a separate function (`InsertSql`, `UpdateSql`, `GetSql`, `DeleteSql`,
  `SelectStatement`), whose contract ties its `?` marks to the values bound. `UpdateBindings` gives the update's
  binding order: request values at 1..n, then `:id` and `:owner_id`.
- **Sessions and authorisation.** This covers the pending-authorisation map (`csrf -> verifier`), the session map
  (`token -> (user, expiry)`), the Google login and callback chain, lookup-or-create of the account, the request
  authoriser middleware of both generations, the `OwnerIdHeader` extractor, and the handlers that validate
  before they store (`Http`, `Sessions`, `Auth`, `GoogleAuth`, `App`, `GlonkApp`).
- **The Game-of-Life `Universe`.** Flat index arithmetic, the toroidal neighbour count, the tick rule and
  the initial pattern (`Life`).

Where the single-tenant generation repeats a multi-tenant piece unchanged, one member stands for both:

- `Criteria.BindingMatchesInline` also covers the builders at `glonk/src/store/mod.rs:82-157`.
- `UserKind.BinderMatchesColumns` also covers the user binder at `glonk/src/types/user.rs:64-88`.
- `Store.Create`, `Store.GetQueries` and `Store.SelectStatement` also cover `glonk/src/store/sqlitestore.rs:23-44`
  and `:93-121`.
- `App.Logout` also covers `glonk/src/lib.rs:231-268`.

How the running program is represented:

- **Rows and tables.** A stored row is a `map<string, Value>`; a column that is absent is SQL `NULL`. A table is a
  `seq` of rows in storage order. The autoincrement id the engine would assign is a parameter `nextId`. When
  `nextId` clashes with an existing id, the insert returns no row, exactly as a failed insert does in the
  program.
- **Environment inputs become parameters.**
  - Each `Mutex::lock` outcome is a `bool`.
  - The clock is an `Instant` in nanoseconds, bounded by the range `OffsetDateTime` can hold, so `checked_add`
    overflow is modelled.
  - The random CSRF token, PKCE verifier and session token are strings.
  - The OAuth code exchange is a function that may fail.
- **Query pairs.** `HashMap` iteration order is unspecified. The model takes the query pairs as a sequence in
  whatever order the map yields them, and proves that extraction keeps that order.
- **Behaviour reproduced as written.**
  - **Delete guard.** `lib-glonk/src/store/sqlitestore.rs:138` applies the two-parameter owner filter only
    when `owner_id_col() == id_col()`, which holds only for users. Notes, comments and punches are therefore
    deleted by id alone, whoever asks (`StoreFacts.OwnedKindsDeleteById`).
  - **`RequestUser::validate_create` in `lib-grundit`** can never return `Ok`
    (`UserKind.ValidateCreate`, `App.UserCreateNeverStores`).
  - **A missing owner on update** reports `MissingRequiredOnCreate("owner_id")`.
  - **The owner-mismatch message** fills its "request header" slot with the payload owner and its "data" slot
    with the header owner (`Validation.MismatchDetail`). Only the variant matters to the handlers, which turn
    every validation error into 404.

## Model

| member | source | states |
|---|---|---|
| Criteria.PlaceholdersMatchValues | lib-glonk/src/types/mod.rs:85-154 | for every criteria tree whose field names contain no `?`, the rendered fragment has exactly as many `?` as bound values, and `And`/`Or` preserve this by adding their operands' counts |
| Criteria.Build | lib-glonk/src/types/mod.rs:85-154 | the rendered fragment binds exactly one value per leaf of the criteria tree |
| Criteria.CombineCount | lib-glonk/src/types/mod.rs:116-129 | the `((l) op (r))` wrapper adds no placeholder of its own: its `?` count is the sum of the operands' counts |
| Criteria.BindingMatchesInline | lib-glonk/src/types/mod.rs:85-154 | substituting the bound values into the `?` marks, left to right, yields the independently defined inline rendering of the tree, so values are bound in left-to-right order |
| Criteria.LeafMatchesInline | lib-glonk/src/types/mod.rs:85-104 | `Contains(f, s)` is `f LIKE ?` bound to `%s%`, and `Equals(f, v)` is `f = ?` bound to `v`; each binds exactly one value |
| Criteria.CombineMatchesInline | lib-glonk/src/types/mod.rs:116-154 | `And`/`Or` bind the left operand's values followed by the right operand's, in the order of their placeholders |
| Criteria.AndOrBindSameValues | lib-glonk/src/types/mod.rs:116-154 | `And(l, r)` and `Or(l, r)` bind the same list `lv ++ rv` but render different SQL |
| Criteria.ContainsFindsSubstring | lib-glonk/src/types/mod.rs:85-92 | a row whose text field contains `s` as a substring (no wildcards in `s`) satisfies `Contains(f, s)` under SQL LIKE |
| Criteria.ContainsDoesNotEscape | lib-glonk/src/types/mod.rs:85-92 | `%` and `_` in the search text are not escaped: `Contains(f, "_")` binds `%_%` and matches any non-empty text |
| Like.SubstringMatches | lib-glonk/src/types/mod.rs:88-90 | the LIKE pattern `%s%` matches every text that contains `s` |
| Like.UnderscoreMatchesAnyNonEmpty | lib-glonk/src/types/mod.rs:88-90 | the pattern `%_%` matches every non-empty text |
| Validation.DisplayNamesMissingField | lib-glonk/src/types/mod.rs:31-47 | the missing-field message names its field: two messages are equal only for the same field |
| Validation.OwnerMismatchPrintsVerbatim | lib-glonk/src/types/mod.rs:31-47 | `InvalidOwnerId(s)` displays as `s` verbatim, so it can print the same text as `MissingIdOnUpdate` |
| Validation.Display | lib-glonk/src/types/mod.rs:31-47 | a missing-field message is the fixed prefix, the field verbatim and a closing backquote; an owner mismatch prints its detail verbatim; the two fixed messages contain no backquote |
| Validation.MismatchDetail | lib-grundit/src/types/note.rs:88-93 | the mismatch text is the "request header owner_id (" label, the payload owner's decimal, the "does not match data owner_id (" label, the header owner's decimal and `)` |
| Validation.MismatchLabelsSwapped | lib-grundit/src/types/note.rs:88-93 | the number after the "request header" label parses back to the payload owner, and the number after the "data" label to the header owner: the labels are swapped |
| Validation.CheckOwner | lib-grundit/src/types/note.rs:85-96 | the owner check accepts exactly a present payload owner that equals the header owner or meets no header; a missing owner is `MissingRequiredOnCreate("owner_id")` and a mismatch is `InvalidOwnerId` |
| Validation.FirstMissing | lib-grundit/src/types/comment.rs:118-133 | reports the first required field that is absent, and none exactly when all are present |
| Validation.ValidateCreate | lib-grundit/src/types/comment.rs:98-141 | create validation is `Ok` iff the owner is accepted, all required fields are present and `id` is absent; otherwise it is the first failure in that order |
| Validation.ValidateUpdate | lib-grundit/src/types/note.rs:121-144 | update validation is `Ok` iff the owner is accepted and `id` is present; owner errors come before `MissingIdOnUpdate` |
| Shape.ColumnsValuesAligned | lib-grundit/src/types/note.rs:146-172 | the listed columns and the bound values have equal length, and the i-th column is bound to the i-th value of a present field |
| Shape.SqlCols | lib-grundit/src/types/note.rs:146-158 | when no column name contains `?`, the comma-joined column list contains no `?` either, so it adds no parameter |
| Shape.SqlPlaceholders | lib-grundit/src/types/note.rs:160-172 | the placeholder list has exactly one `?` per present column |
| Shape.Bind | lib-grundit/src/types/note.rs:66-82 | one binding per present column; binding i carries index i+1 and the value of the present field written to the i-th column |
| Shape.Assignment | lib-glonk/src/store/sqlitestore.rs:61-81 | the `SET` assignment touches exactly the present columns, and with distinct columns each gets its field's value |
| NoteKind.OwnerIsNotId | lib-grundit/src/types/note.rs:42-56 | notes live in table `notes` with id column `id` and owner column `owner_id`, which differ |
| NoteKind.Columns | lib-grundit/src/types/note.rs:146-158 | the present columns are listed in the order id, owner_id, contents |
| NoteKind.BinderMatchesColumns | lib-grundit/src/types/note.rs:66-82 | one placeholder per present column; binding i carries index i+1 and the i-th column's value |
| NoteKind.ValidateCreate | lib-grundit/src/types/note.rs:85-119 | `Ok` iff the owner is accepted, `contents` is present and `id` is absent; otherwise the first failure in that order |
| NoteKind.ValidateUpdate | lib-grundit/src/types/note.rs:121-144 | a missing owner gives `MissingRequiredOnCreate("owner_id")` even without an id; a mismatch gives `InvalidOwnerId`; otherwise `Ok` iff `id` is present, else `MissingIdOnUpdate` |
| NoteKind.ParseQuery | lib-grundit/src/types/note.rs:199-224 | `byContentsContains` gives `Contains("contents", v)`; `byOwnerId` gives `Equals("owner_id", v)` iff `v` parses as an i64; any other key is rejected |
| CommentKind.OwnerIsNotId | lib-grundit/src/types/comment.rs:45-73 | comments live in table `comments` with id column `id` and owner column `owner_id`, which differ |
| CommentKind.Columns | lib-grundit/src/types/comment.rs:169-185 | the present columns are listed in the order id, owner_id, note_id, contents |
| CommentKind.BinderMatchesColumns | lib-grundit/src/types/comment.rs:76-96 | one placeholder per present column; binding i carries index i+1 and the i-th column's value |
| CommentKind.ValidateCreate | lib-grundit/src/types/comment.rs:98-141 | `Ok` iff the owner is accepted, `contents` and `note_id` are present and `id` is absent; otherwise the first failure in that order |
| CommentKind.ValidateUpdate | lib-grundit/src/types/comment.rs:143-167 | owner errors first (a missing owner is `MissingRequiredOnCreate("owner_id")`), then `Ok` iff `id` is present |
| CommentKind.ParseQuery | lib-grundit/src/types/comment.rs:230-265 | accepts only `byContentsContains`, `byOwnerId` and `byNoteId`; the latter two only with an i64 value, mapped to `Equals` on `owner_id` and `note_id` |
| PunchKind.OwnerIsNotId | lib-grundit/src/types/punch.rs:38-66 | punches live in table `punches` with id column `id` and owner column `owner_id`, which differ |
| PunchKind.Columns | lib-grundit/src/types/punch.rs:148-160 | the present columns are listed in the order id, owner_id, geo |
| PunchKind.BinderMatchesColumns | lib-grundit/src/types/punch.rs:68-84 | one placeholder per present column; binding i carries index i+1 and the i-th column's value |
| PunchKind.ValidateCreate | lib-grundit/src/types/punch.rs:87-121 | `Ok` iff the owner is accepted, `geo` is present and `id` is absent; otherwise the first failure in that order |
| PunchKind.ValidateUpdate | lib-grundit/src/types/punch.rs:123-146 | owner errors come before id errors; otherwise `Ok` iff `id` is present, else `MissingIdOnUpdate` |
| PunchKind.ParseQuery | lib-grundit/src/types/punch.rs:199-221 | accepts exactly `byOwnerId` with an i64 value, mapped to `Equals("owner_id", v)` |
| UserKind.ToRow | lib-grundit/src/types/user.rs:33-53 | the row storing a user has exactly the columns id, guid, name, email and picture, and `from_rows` decodes it back to that user |
| UserKind.OwnerId | lib-grundit/src/types/user.rs:229-231 | the owner a request asserts is exactly the value its first field writes to the owner column `id` |
| UserKind.FromRow | lib-grundit/src/types/user.rs:33-45 | a decoded user carries the row's integer `id` and text `guid`, and all four profile columns are text in the row |
| UserKind.FromRowRestores | lib-grundit/src/types/user.rs:33-45 | re-encoding a decoded user reproduces the row on every user column |
| UserKind.OwnerIsId | lib-grundit/src/types/user.rs:229-231 | a user's owner column is its id column, both `id`, and `owner_id()` returns the `id` field |
| UserKind.Columns | lib-grundit/src/types/user.rs:185-203 | the present columns are listed in the order id, guid, name, email, picture |
| UserKind.BinderMatchesColumns | lib-grundit/src/types/user.rs:73-97 | one placeholder per present column; binding i carries index i+1 and the i-th column's value |
| UserKind.ProfileOrder | lib-grundit/src/types/user.rs:119-149 | the profile fields are checked in the order guid, name, email, picture |
| UserKind.ValidateCreate | lib-grundit/src/types/user.rs:100-158 | never `Ok`: an absent id gives `MissingRequiredOnCreate("owner_id")`, a mismatching header gives `InvalidOwnerId`, and otherwise the first missing profile field or `IdProvidedOnCreate` |
| UserKind.ValidateUpdate | lib-grundit/src/types/user.rs:160-183 | `Ok` iff `id` is present and the header owner is absent or equal to it; `MissingIdOnUpdate` is unreachable |
| UserKind.ParseQuery | lib-grundit/src/types/user.rs:248-274 | accepts only `byGuid`, mapped to `Equals("guid", v)` as text |
| GlonkValidation.Display | glonk/src/types/mod.rs:42-56 | each single-tenant error prints exactly the text of the multi-tenant variant of the same name |
| GlonkValidation.Embed | glonk/src/types/mod.rs:35-40 | the single-tenant error type has no owner-mismatch variant: none of its variants maps to `InvalidOwnerId`, and only the missing-field one carries a field |
| GlonkUserKind.ValidateCreate | glonk/src/types/user.rs:91-131 | `Ok` iff guid, name, email and picture are present and `id` is absent; otherwise the first failure in that order |
| GlonkUserKind.ValidateUpdate | glonk/src/types/user.rs:133-138 | `Ok` iff `id` is present, else `MissingIdOnUpdate` |
| GlonkUserKind.ParseQuery | glonk/src/types/user.rs:199-233 | accepts only `byGuid`, mapped to `Equals("guid", v)` |
| Kinds.Build | lib-grundit/src/types/mod.rs:55-64 | every parsed query renders exactly one `?` and binds exactly one value |
| Kinds.BuildWellFormed | lib-grundit/src/types/mod.rs:55-64 | every parsed query builds the fragment of its kind's criterion, whose placeholders match its values and bind in order |
| Kinds.TryFrom | lib-grundit/src/types/mod.rs:66-91 | the parse is routed to exactly the path kind's parser, and its rejection is propagated |
| Kinds.ExtractQueries | lib-grundit/src/types/mod.rs:126-144 | keeps exactly the pairs that parse for the path's kind, at most one query per pair, each of that kind |
| Kinds.ExtractKeepsOrder | lib-grundit/src/types/mod.rs:136-140 | extraction distributes over concatenation, so queries come out in the iteration order of the pairs |
| Kinds.UnknownKeyDropped | lib-grundit/src/types/mod.rs:136-140 | a pair whose key no kind recognises is silently dropped |
| GlonkTypes.TryFrom | glonk/src/types/mod.rs:91-106 | routes `User` to the user parser (only `byGuid`) and `Note` to the note parser, propagating rejection |
| GlonkTypes.Build | glonk/src/types/mod.rs:82-89 | a user query binds its guid as text behind exactly one `?`; a note query with well-named fields has one `?` per bound value |
| GlonkTypes.ExtractQueries | glonk/src/store/mod.rs:56-72 | keeps exactly the pairs that parse for the path's kind, at most one per pair |
| GlonkTypes.UserExtractKeepsGuids | glonk/src/store/mod.rs:65-68 | for users, no pair is dropped iff every key is `byGuid` |
| Store.InsertSql | lib-glonk/src/store/sqlitestore.rs:24-30 | when no table or column name contains `?`, the insert statement has exactly one `?` per binding the request's binder produces |
| Store.UpdateSql | lib-glonk/src/store/sqlitestore.rs:61-69 | when no table or column name contains `?`, the update statement has exactly one positional `?` per binding; id and owner go to the named `:id` and `:owner_id` |
| Store.UpdateBindings | lib-glonk/src/store/sqlitestore.rs:71-73 | the update binds the request values at 1..n in column order, then the id at n+1 and the owner at n+2 |
| Store.GetSql | lib-glonk/src/store/sqlitestore.rs:88-92 | when table and id column contain no `?`, the statement has exactly the one `?` the id is bound to |
| Store.DeleteSql | lib-glonk/src/store/sqlitestore.rs:148-153 | when no name contains `?`, the delete statement has exactly the `?` marks of its filter |
| Store.DeleteStatementBinds | lib-glonk/src/store/sqlitestore.rs:137-153 | the delete statement has exactly one `?` per value the filter binds, with or without an owner |
| Store.Create | lib-glonk/src/store/sqlitestore.rs:23-44 | succeeds iff the lock is taken and the new row is insertable; then the row is appended and returned with exactly the present columns plus the id column, the given fields' values and the assigned id; otherwise `NotCreated` and the table is unchanged |
| Store.Update | lib-glonk/src/store/sqlitestore.rs:46-84 | a missing id or owner, or a failed lock, gives `NotCreated` before touching the table; otherwise exactly the rows matching id and owner get the assignment and the returned row is one of them |
| Store.Get | lib-glonk/src/store/sqlitestore.rs:86-104 | returns a row with that id iff the lock is taken and such a row exists |
| Store.GetQueries | lib-glonk/src/store/sqlitestore.rs:106-134 | with the lock, returns exactly the rows satisfying every query; without it, the empty list |
| Store.GetQueriesKeepsOrder | lib-glonk/src/store/sqlitestore.rs:124-133 | matching rows are returned in table order |
| Store.NoQueriesSelectsAll | lib-glonk/src/store/sqlitestore.rs:119-123 | no queries means no `where` and every row |
| Store.SelectStatement | lib-glonk/src/store/sqlitestore.rs:108-123 | the statement is `SELECT * FROM t` plus ` where ` and the clauses joined by ` and ` only when queries exist, and the values are bound at indices 1..n in query order, then value order |
| Store.JoinedClausesBindInOrder | lib-glonk/src/store/sqlitestore.rs:108-123 | the joined where clause has one `?` per bound value, and substituting the bindings gives the inline rendering of every query joined by ` and ` |
| Store.SelectBindsInOrder | lib-glonk/src/store/sqlitestore.rs:108-123 | the whole select statement has one `?` per binding, and substitution gives its inline rendering |
| Store.DeleteFilter | lib-glonk/src/store/sqlitestore.rs:137-147 | the filter binds the id at index 1, and binds the owner at index 2 iff an owner is given and the owner column is the id column |
| Store.Delete | lib-glonk/src/store/sqlitestore.rs:136-167 | succeeds iff the lock is taken and a row passes the filter; then every such row is gone, the other rows stay in table order, and the first selected row is returned; otherwise `NotFound` and the table is unchanged |
| Store.DeleteKeepsOrder | lib-glonk/src/store/sqlitestore.rs:148-160 | the rows a delete leaves keep their order and multiplicity: splitting the table splits the remainder the same way, and a single row stays iff the filter does not select it |
| StoreFacts.CreateThenGet | lib-glonk/src/store/sqlitestore.rs:32-43 | a created record can be read back by its assigned id |
| StoreFacts.DeleteThenGet | lib-glonk/src/store/sqlitestore.rs:138-147 | after an unfiltered delete, the id can no longer be read |
| StoreFacts.DeleteIgnoresOwner | lib-glonk/src/store/sqlitestore.rs:138-147 | for a kind whose owner column differs from its id column, supplying an owner changes nothing |
| StoreFacts.OwnedKindsDeleteById | lib-glonk/src/store/sqlitestore.rs:138-147 | notes, comments and punches are deleted by id alone, whatever owner is supplied |
| StoreFacts.UserDeletesOnlySelf | lib-glonk/src/store/sqlitestore.rs:138-141 | with an owner supplied, a user delete succeeds only for the caller's own id |
| GlonkStore.Update | glonk/src/store/sqlitestore.rs:46-75 | a missing id or a failed lock gives `NotCreated`; otherwise every row with that id is updated, with no owner scoping, and zero matches give `NotCreated` |
| GlonkStore.Get | glonk/src/store/sqlitestore.rs:77-91 | returns a row whose literal `id` column matches iff the lock is taken and such a row exists |
| GlonkStore.Delete | glonk/src/store/sqlitestore.rs:123-141 | removes every row with that id, keeping the others in table order, and returns one of the removed rows; `NotFound` on zero matches or lock failure |
| GlonkStore.DeleteKeepsOrder | glonk/src/store/sqlitestore.rs:123-141 | the rows a delete leaves keep their order and multiplicity: splitting the table splits the remainder the same way, and a single row stays iff its `id` differs |
| GlonkStore.DeleteThenGet | glonk/src/store/sqlitestore.rs:123-141 | after a delete the id can no longer be read |
| GlonkStore.UpdateIsUnscoped | glonk/src/store/sqlitestore.rs:54-74 | the single-tenant update equals the multi-tenant one scoped to the row's own id, so it never checks ownership |
| Decimal.ParseFormatRoundTrip | lib-grundit/src/auth/mod.rs:52-67 | the decimal rendering of any i64 the authoriser writes parses back to the same value |
| Decimal.ParseI64 | lib-grundit/src/types/note.rs:208-215 | a string parses iff it is an optional `+` or `-` followed by at least one ASCII digit and the value it denotes lies in the i64 range; the parsed value is that value |
| Decimal.FormatParseRoundTrip | lib-grundit/src/types/note.rs:208-215 | a canonical decimal string (no `+`, no leading zero, not `-0`) that parses is rendered back to itself |
| Http.ValueTrimmed | lib-grundit/src/auth/mod.rs:23-28 | the cookie value is kept, or one pair of surrounding double quotes is removed |
| Http.TrimQuoted | lib-grundit/src/auth/mod.rs:23-28 | a quoted cookie value is read without its quotes |
| Sessions.CheckedAdd | glonk/src/auth/google_auth.rs:201-213 | adding a duration succeeds iff the result stays in the representable time range, and then moves the instant by exactly that duration |
| Auth.CookieSession | lib-grundit/src/auth/mod.rs:23-47 | a session is found iff the `session_id` cookie is present, the lock is taken and the trimmed token is in the session map |
| Auth.Authorize | lib-grundit/src/auth/mod.rs:17-73 | passes iff the cookie names a session whose expiry is strictly later than now; on success `owner-id` is set to the session user's id, replacing any client value, and every other header is kept |
| Auth.OwnerIdIsHeaderText | lib-grundit/src/auth/mod.rs:52-67 | the decimal id is always a valid header value |
| Auth.GlonkAuthorize | glonk/src/auth/mod.rs:21-56 | passes under the same conditions and forwards the request unchanged |
| Auth.Guard | lib-grundit/src/auth/mod.rs:45-73 | a denied request gets 403 and the next handler is not run; a passed one is answered by the next handler |
| Auth.GatesAgree | glonk/src/auth/mod.rs:29-51 | both generations' authorisers decide alike |
| Auth.OwnerCannotBeForged | lib-grundit/src/auth/mod.rs:52-70 | the forwarded owner depends only on the session, not on the headers the client sent |
| GoogleAuth.ToRequestUser | glonk/src/auth/google_auth.rs:95-105 | the converted request has no id, guid `google/` + provider id, and copied name, email and picture, and always passes create validation |
| GoogleAuth.GuidInjective | glonk/src/auth/google_auth.rs:95-105 | two provider accounts get the same guid iff they have the same provider id |
| GoogleAuth.Login | glonk/src/auth/google_auth.rs:115-142 | with the lock, `csrf -> verifier` is recorded and the browser sent to the provider; on lock failure nothing is stored and the browser is sent to `/` |
| GoogleAuth.RetrieveOrCreateUser | glonk/src/auth/google_auth.rs:289-318 | one guid match returns it, none creates the user (or `None` if create fails), two or more return `None`; a returned user has the account's guid and the table grows only by the new user's row |
| GoogleAuth.CreatedRowDecodes | glonk/src/auth/google_auth.rs:298-310 | the row created for a new account decodes to the user with the assigned id and the account's profile |
| GoogleAuth.Callback | glonk/src/auth/google_auth.rs:144-234 | a missing `state` or `code`, a failed lock, or an unknown `state` gives 403 with nothing changed; otherwise the state is consumed; after a successful exchange the users table is the lookup-or-create result; the answer is a 307 to `/` iff the exchange succeeds, lookup-or-create yields a user, the sessions lock is taken and the expiry is representable, and then the cookie is `session_id` for ten minutes and the new session holds exactly that user, expiring ten minutes from now; every other outcome is 403 with the sessions unchanged |
| GoogleAuth.RedeemAtMostOnce | glonk/src/auth/google_auth.rs:164-177 | replaying a callback with the same `state` is refused |
| GoogleAuth.LoginThenCallback | glonk/src/auth/google_auth.rs:131-177 | a callback carrying the state a login just recorded reaches the exchange |
| GoogleAuth.SessionWindow | glonk/src/auth/google_auth.rs:199-220 | a session created at `now` passes the authoriser strictly before `now + 10 min` and is refused from then on |
| App.WithTable | lib-grundit/src/app.rs:169-183 | a store operation on one kind leaves the other kinds' tables untouched |
| App.OwnerIdHeader | lib-grundit/src/app.rs:396-422 | an absent header gives `None`; an i64-parsable header gives that value; anything else rejects the request |
| App.GateFixesOwner | lib-grundit/src/app.rs:404-421 | behind the authoriser, the extractor yields exactly the session user's id |
| App.HandleCreate | lib-grundit/src/app.rs:169-183 | failed validation gives 404 without touching the store; the response is JSON iff validation and the store succeed, and then it is exactly the row the store create returns, and the kind's table is the store's extended table |
| App.HandleUpdate | lib-grundit/src/app.rs:231-245 | failed validation gives 404 without touching the store; the response is JSON iff validation and the store succeed, and then it is the row the store update returns and the kind's table is the store's updated table; other kinds are untouched |
| App.DataDelete | lib-grundit/src/app.rs:132-167 | the header owner is forwarded to the store delete; success returns the row the store delete returns, which has that id, and the kind's table becomes the store's remaining table; any error is 404 with nothing changed |
| App.Whoami | lib-grundit/src/app.rs:293-309 | the response is JSON iff an owner is given and the store `get` finds a user with that id (so a failed lock gives 404), and then it is exactly that row |
| App.Logout | lib-grundit/src/app.rs:327-364 | no cookie gives 400 `Missing session_id`; otherwise the session is removed when the lock is taken and the response is always 307 to `/` with `session_id` expired (max-age -60 s, path `/`, HttpOnly) |
| App.LogoutThenDenied | lib-grundit/src/app.rs:336-350 | after a logout, the same cookie is refused by the authoriser |
| App.LogoutKeepsOthers | lib-grundit/src/app.rs:336-350 | logout touches no other session |
| App.UserCreateNeverStores | lib-grundit/src/app.rs:169-183 | creating a user through the data routes always gives 404 and never stores |
| App.CreatedRecordIsCallers | lib-grundit/src/app.rs:169-183 | for a signed-in caller, every record created through the handler carries the caller's id in its owner column |
| App.StatementsMatchBinders | lib-glonk/src/store/sqlitestore.rs:23-154 | for every request kind, the insert and update statements have one `?` per request binding, the get statement one, and the delete statement one per filter binding, so no statement is prepared with a mismatched parameter count |
| App.UpdatedRecordIsCallers | lib-grundit/src/app.rs:231-245 | for a signed-in caller, a successful update returns a record owned by the caller |
| GlonkApp.HandleCreate | glonk/src/lib.rs:132-145 | failed validation gives 404 without touching the store; the response is JSON iff the store create succeeds, and then it is exactly the row the store create returns and the users table is the store's extended table |
| GlonkApp.HandleUpdate | glonk/src/lib.rs:174-187 | a request without an id gives 404 without touching the store; succeeds iff the lock is taken and a user with that id exists, and then returns the row the unscoped store update returns, with the users table replaced by the updated one; notes are untouched |
| GlonkApp.DataDelete | glonk/src/lib.rs:110-130 | delete by id alone: success returns exactly the row the store delete returns, and that kind's table becomes the store's remaining table, in order; the other kind is untouched and any error is 404 |
| Life.GetIdx | static/home/src/lib.rs:226-228 | `row * width + col` lies in `[0, width*height)` for in-range coordinates, and division and remainder by the width recover row and column |
| Life.IdxInjective | static/home/src/lib.rs:226-228 | distinct in-range coordinates have distinct indices |
| Life.LiveNeighborCount | static/home/src/lib.rs:230-245 | the loop computes the sum over offsets `height-1, 0, 1` × `width-1, 0, 1` without the cell itself; it is at most 8, and for grids at least 2×2 equals the toroidal count of the eight neighbours |
| Life.CodeCountIsNeighbourCount | static/home/src/lib.rs:232-243 | for grids at least 2×2, adding `n-1` modulo `n` is stepping back one, so the code's count is the toroidal neighbour count |
| Life.AtMostEight | static/home/src/lib.rs:230-245 | skipping the centre leaves eight terms of at most one each |
| Life.Rule | static/home/src/lib.rs:255-261 | the next state is alive iff there are exactly 3 live neighbours, or the cell is alive with 2 |
| Life.Tick | static/home/src/lib.rs:247-266 | the next generation keeps the dimensions and length, and every cell is the rule applied to the previous generation's cell and count |
| Life.New | static/home/src/lib.rs:268-284 | a 128×64 grid in which cell `i` is alive iff `i % 2 == 0` or `i % 7 == 0` |
| Life.NewEvenColumnsAlive | static/home/src/lib.rs:268-284 | every even column of the initial grid is alive |
| Life.Width | static/home/src/lib.rs:286-288 | the stored width, truncated to 32 bits |
| Life.Height | static/home/src/lib.rs:290-292 | the stored height, truncated to 32 bits |
| Sequences.FilterMapConcat | lib-grundit/src/types/mod.rs:136-140 | `filter_map` distributes over concatenation |
| Sequences.FilterMapKeepsAll | lib-grundit/src/types/mod.rs:136-140 | `filter_map` keeps the length iff every element maps to a value |

## Left out

- HTTP plumbing: axum routing and layering, serde parsing of request bodies (the 400 arms), `IntoResponse`
  conversions and `QueriesRejection`. Each handler is a pure function returning an abstract `Response`. The
  extractor's rejection is the `Rejected` response.
- `data_get` and `data_get_queries` handlers: they only forward to `get` and `get_queries`, which are modelled.
- The SQLite engine. Statement preparation, type affinity and constraint checks become `Store.Insertable`.
  `from_rows` decoding `unwrap`s column reads; a row it cannot decode is `None` in `UserKind.FromRow` instead
  of a panic.
- The full-record `Bindable` impls for User, Note, Comment and Punch: the store code never calls them. The
  Punch impl's binding of `geo` at index 2 (lib-grundit/src/types/punch.rs:33) is therefore not modelled.
- The OAuth exchange (`get_google_user_info`, including its `unwrap` at glonk/src/auth/google_auth.rs:254)
  and `GoogleAuthClient::from_env`. The exchange is the `exchange` parameter of `GoogleAuth.Environment`.
- Randomness (CSRF token, PKCE pair, session token) and `OffsetDateTime::now_utc`: these are parameters.
- Concurrency: `Mutex` and `Arc`. Each map or store operation is atomic, and a lock failure is a `bool` input.
- glonk/src/types/note.rs is not part of this model. The single-tenant note query parser is a parameter of
  `GlonkTypes.TryFrom`, and the single-tenant handlers are modelled for the user kind.
- glonk/src/store/error.rs and lib-grundit/src/error.rs are re-declared as the `StoreError` and `Response`
  datatypes rather than modelled.
- Store.Create: returns `Ok` for a request with no present field, where the engine would panic preparing
  `INSERT INTO t() VALUES ()` (lib-glonk/src/store/sqlitestore.rs:33). No handler reaches it, because create
  validation requires at least one field.
- Life.GetIdx: `usize` overflow of `row * width + col` is not modelled, because the grid is 128×64.
- Life.LiveNeighborCount: for a grid of width or height 1, the code's offsets `n-1` and `1` both land on
  the cell's own row or column. The count then includes the cell and its copies and differs from the
  neighbour count; the contract states the equality only for grids at least 2×2.
- Life.Width: the `u32` truncation is `% 2^32`; the source never stores a width that large.
- The canvas, fetch and geolocation code of the page (`draw_grid`, `draw_cells`, `run`, `whoami`,
  `post_punch*`), the console clients, process bootstrap, DDL and configuration.
- Debug and error logging in logout and the callback.
