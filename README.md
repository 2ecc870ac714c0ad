# Truck wash: a verified model of the request logic

The application runs a truck-washing business. Managers administer accounts,
washers log each wash with a "before" and an "after" photo, and drivers own
the trucks. This Dafny project models the parts of the Next.js code that
make decisions, and proves what they promise:

- the route gate in `src/middleware.ts` and the role redirect of the root page;
- the photo rules and storage layout in `src/lib/imageUtils.ts`;
- the pre-signed upload route;
- the sweep of old photos and the route that starts it;
- the wash routes: logging a wash (find-or-create truck, record with two
  images) and listing a washer's washes newest first;
- the user administration routes, with their soft delete;
- the Google NextAuth configuration of `src/lib/auth.ts`: first-user
  bootstrap, the name fallback, and the `signIn`, `jwt` and `session`
  callbacks;
- the federated logout decision.

## How the model is built

- One Dafny module per source file: `Middleware`, `HomePage`, `ImageUtils`,
  `UploadRoute`, `CleanupS3`, `CleanupRoute`, `WashesRoute`, `UsersRoute`,
  `Auth`, `FederatedLogout`.
- Shared vocabulary lives in small modules:
  - `Common`: `Option`, JavaScript truthiness.
  - `Text`: `split`, `join`, `startsWith`.
  - `Numerals`: decimal printing and parsing, hex.
  - `FormUrl`: the `application/x-www-form-urlencoded` serializer of
    section 5.2 of the WHATWG URL Standard.
  - `Sessions`: token and session records, and the role gate every route
    opens with.
  - `Database`: the Prisma entities and lookups, and a `Db` class holding
    the tables.
- The database is a `Db` object whose tables are sequences. The Prisma
  writes are its methods, and they keep the schema's unique constraints
  (`Db.Valid`). Routes that write (`POST /api/washes`, `PUT` and `DELETE`
  `/api/users`, the adapter's `createUser`) are methods that modify it.
  Everything else is a function.
- What the code cannot see is a parameter:
  - the clock (`now` in milliseconds, `isoNow` as ISO text);
  - the 16 random bytes of an upload's file name;
  - the S3 signer, lister and deleter, and the image compression library,
    each a function value.
  "The route never calls the signer" is then stated as "the answer is the
  same for any two signers".
- JSON bodies are records. An absent field is its falsy value (`""`, `0`,
  `None`). A body that does not parse is `None`, which each route's catch
  turns into its 500 answer. A property lookup that JavaScript prints as
  `undefined` is modelled as the text "undefined".

## Behaviour worth noting

The model follows the code in each of these cases, including where the
code falls short of what the application evidently intends.

- **Soft-deleted users stay signed in.** A soft-deleted user is meant to be
  gone. The code excludes them from `GET /api/users`, and `DELETE`
  treats them as not found (`UsersRoute.Delete`). `PUT`, `jwt` and
  `session` ignore `deletedAt`: the callbacks look users up by email, so a
  soft-deleted user keeps their role (`Auth.SoftDeletedKeepsRole`).
- **Logging a wash is not one atomic unit.** The truck is created first. If
  the record write then fails (unknown washer id), the new truck stays
  (`WashesRoute.Post`).
- **Price.** A wash price is meant to be positive. The code only
  rejects a falsy price, so a negative price is accepted (`WashesRoute.AcceptedWhenChecksPass`).
- **Cleanup never fetches an in-use set.** `cleanupOldImages` deletes every
  aged object under the prefix, whether or not a record still refers to it
  (`CleanupS3.ReferencedKeysNotSpared`).
- **Cleanup reads one page of the listing.** The sweep is meant to cover
  every object under the prefix. The code sends one
  `ListObjectsV2` request, which returns at most 1000 keys, and never
  follows the continuation token. Aged photos beyond the first page are
  never deleted. The `list` parameter of `CleanupS3.CleanupOldImages`
  stands for that one request.
- **`imageType` is not validated.** Any `imageType` other than "before" or
  "after" is accepted, and the key then holds the segment "undefined"
  (`ImageUtils.SlotSegment`).
- **Two NextAuth configurations.** The mounted handler,
  `src/app/api/auth/[...nextauth]/route.ts`, uses the credentials
  configuration of that file. Its `session` callback copies the token's id
  and role without a table lookup. `/api/users`, `/api/cleanup` and the
  federated logout read the session with the Google configuration of
  `src/lib/auth.ts`, so they see the stored role. `/api/upload`,
  `/api/washes` and the root page read it with the credentials
  configuration, so they see the role in the token. The `signIn`, `jwt`
  and `createUser` of `src/lib/auth.ts` are modelled as written, but no
  handler in this tree mounts them.

## Model

| member | source | states |
|---|---|---|
| Text.Split | src/app/api/upload/route.ts:42 | JavaScript `split` on one character: at least one piece, no piece holds the separator |
| Text.JoinSplit | src/lib/imageUtils.ts:80-81 | joining the pieces of a split with the separator gives back the string |
| Text.SplitJoin | src/lib/imageUtils.ts:81 | separator-free pieces joined with the separator split back into the same pieces |
| Numerals.NatToString | src/app/api/cleanup/route.ts:25 | the decimal text of a number is non-empty, all digits, with no leading zero |
| Numerals.ParsePrinted | src/app/api/cleanup/route.ts:25 | parsing the printed number gives the number back |
| Numerals.PrintedInjective | src/app/api/cleanup/route.ts:25 | distinct numbers print differently |
| Numerals.Hex | src/app/api/upload/route.ts:43 | `toString('hex')` gives two lower-case hex digits per byte |
| Numerals.UnhexHex | src/app/api/upload/route.ts:43 | the hex text decodes back to the random bytes, so distinct bytes give distinct file names |
| FormUrl.FormEncode | src/app/api/auth/federated-logout/route.ts:27 | the serialized value holds only unreserved characters, `+` and `%`, never `&`, `=` or `#` |
| FormUrl.DecodeEncode | src/app/api/auth/federated-logout/route.ts:27 | an ASCII value decodes back from its serialized form |
| Sessions.HasRole | src/app/api/upload/route.ts:13 | the gate every route opens with: a session with a user whose role is the required one; the premise of each route's 401 clause |
| Sessions.GateUser | src/app/api/upload/route.ts:13 | accessor: the user of a session past the gate, whose role is the required one |
| Database.RoleFromName | src/app/api/users/route.ts:39-43 | a role string is accepted only when it names an enum value |
| Database.RoleNameRoundTrip | src/app/api/users/route.ts:39-43 | every role is read back from its name |
| Database.UserIndex | src/app/api/users/route.ts:65-67 | `findUnique` by id: the position holds that id, or no row has it |
| Database.FindUser | src/app/api/users/route.ts:65-67 | `findUnique` by id: the row found has that id, or no row has it |
| Database.FindUserByEmail | src/lib/auth.ts:76-78 | `findUnique` by email: the row found has that address, or no row has it |
| Database.FindTruckByPlate | src/app/api/washes/route.ts:43-45 | `findUnique` by plate: the truck found has that plate, or none has it |
| Database.ImagesOfMembers | src/app/api/washes/route.ts:121 | the images included with a record are exactly those pointing at it |
| Database.ImagesOfAppend | src/app/api/washes/route.ts:121 | the image lookup distributes over appending rows |
| Database.Db.constructor | src/app/api/washes/route.ts:43-92 | an empty database satisfies the unique constraints |
| Database.Db.CreateTruck | src/app/api/washes/route.ts:47-54 | inserts a truck with the next id, the plate and the driver; only the truck table changes and the plate then finds it |
| Database.Db.CreateWashRecord | src/app/api/washes/route.ts:56-92 | inserts the record and its before and after images, which are then the record's only images; users and trucks unchanged |
| Database.Db.InsertUser | src/lib/auth.ts:36-43 | inserts the row if and only if its id and its email are both free; the other tables and the id counters are unchanged |
| Database.Db.UpdateUserAt | src/app/api/users/route.ts:40-43 | replaces one row keeping its id, and keeps email unique; the other tables and the id counters are unchanged |
| Database.FindAppended | src/app/api/washes/route.ts:43-54 | after a truck is created for a plate, looking the plate up finds it |
| Database.NewRecordImages | src/app/api/washes/route.ts:70-81 | a fresh record's images are exactly the two written with it, and image ids stay below the advanced counters |
| Database.NoImagesYet | src/app/api/washes/route.ts:70-81 | a record id above every existing reference has no images yet |
| Database.RecordAppended | src/app/api/washes/route.ts:85-92 | a record written with the next id keeps every record id below the advanced counter |
| Middleware.Middleware | src/middleware.ts:5-59 | every redirect goes to the login page or one of the three role homes; a request passes only with a token and never at `/` |
| Middleware.Matched | src/middleware.ts:69-71 | `config.matcher`: `/` and the three dashboards with any sub-path; the premise of LoginNotMatched and HomeIsReachable |
| Middleware.Section | src/middleware.ts:70 | `base/:path*`: the base itself or a path below it; used by Matched |
| Middleware.MiddlewareSpec | src/middleware.ts:10-59 | reference description: no token goes to login; at `/` or on another role's prefix a token goes to its role's home; everything else passes |
| Middleware.PrefixesExclusive | src/middleware.ts:32-52 | no path starts with two of the role prefixes, so the order of the three checks does not matter |
| Middleware.NoTokenGoesToLogin | src/middleware.ts:10-12 | with no token every path is sent to the login page |
| Middleware.HomeIsReachable | src/middleware.ts:17-59 | each role's home is a gated path that the gate lets that role through |
| Middleware.LoginNotMatched | src/middleware.ts:69-71 | the login page is not among the matched paths |
| Middleware.NoRedirectLoop | src/middleware.ts:9-71 | following a redirect once leaves the gated paths or is let through |
| HomePage.Home | src/app/page.tsx:5-24 | the page fails to render exactly when a session has no user; otherwise it redirects |
| HomePage.HomeAgreesWithGate | src/app/page.tsx:8-23 | the page sends a user where the gate sends a request for `/` carrying the same role |
| HomePage.HomeAlwaysRedirects | src/app/page.tsx:8-23 | the target is the login page or a home the gate lets that role into |
| ImageUtils.Limits | src/lib/imageUtils.ts:3-33 | the limit is 1048576 bytes, the five allowed types, upload URLs live for less time than view URLs (one day) |
| ImageUtils.ValidateAndCompressImage | src/lib/imageUtils.ts:36-76 | valid exactly when there is no error; a valid result has an allowed type and a file within the limit; a refused type gives the type error |
| ImageUtils.CompressionOnlyWhenNeeded | src/lib/imageUtils.ts:41-50 | the compressor is not consulted for a refused type or a file within the limit |
| ImageUtils.SmallFileUnchanged | src/lib/imageUtils.ts:66-69 | an allowed file within the limit is valid and returned as it is |
| ImageUtils.LargeFileCompressed | src/lib/imageUtils.ts:49-75 | a large allowed file is valid iff its compressed copy fits, and that copy is returned; a compressor exception is the processing error |
| ImageUtils.SlotSegment | src/lib/imageUtils.ts:81 | "before" for `before`, "after" for `after`, and "undefined" for any other slot; never holds `/` |
| ImageUtils.DatePart | src/lib/imageUtils.ts:80 | the text before the first `T` of the ISO time; its value is stated by IsoDatePart |
| ImageUtils.GenerateS3Key | src/lib/imageUtils.ts:78-82 | the five segments joined with `/`; that they split back apart is stated by KeySegments |
| ImageUtils.IsoDatePart | src/lib/imageUtils.ts:80 | the date part of an ISO timestamp is its first ten characters, and the timestamp holds no `/` |
| ImageUtils.KeySegments | src/lib/imageUtils.ts:78-82 | the key splits on `/` into washes, user id, date, slot and file name |
| UploadRoute.Extension | src/app/api/upload/route.ts:42 | the extension never holds `/` |
| UploadRoute.FileName | src/app/api/upload/route.ts:43 | the hex of the random bytes, a dot and the extension; FileNameHasNoSlash and UploadKeySegments state its properties |
| UploadRoute.TooLarge | src/app/api/upload/route.ts:32 | only a present size above 1048576 bytes is too large; the premise of SizeBoundary |
| UploadRoute.Post | src/app/api/upload/route.ts:10-90 | URLs are issued only to a washer, for an allowed type and a size within the limit; a non-washer gets 401; failures are 400, 401 or 500 |
| UploadRoute.UnauthorizedNeverSigns | src/app/api/upload/route.ts:12-15 | a non-washer gets 401 whatever the signer does |
| UploadRoute.TypeCheckedFirst | src/app/api/upload/route.ts:19-29 | a refused type gives the type error whatever the size |
| UploadRoute.PlainTextRefused | src/app/api/upload/route.ts:20-29 | `text/plain` is refused with 400 |
| UploadRoute.SizeBoundary | src/app/api/upload/route.ts:31-39 | every size above 1048576 bytes is refused with 400, 1048577 among them; 1048576 bytes pass the size check |
| UploadRoute.SuccessShape | src/app/api/upload/route.ts:41-82 | on success the key is the storage key of the fresh file name; the upload URL signs a one-hour PUT of it with the requested type, the view URL a one-day GET |
| UploadRoute.SignerFailure | src/app/api/upload/route.ts:65-89 | past the checks, the answer is the two URLs or 500 with the route's message, whichever of the two signing calls fails |
| UploadRoute.SubtypeExtension | src/app/api/upload/route.ts:42 | the extension of `image/x` is `x` |
| UploadRoute.AllowedExtensions | src/app/api/upload/route.ts:42 | each allowed type's extension is its subtype |
| UploadRoute.UploadKeySegments | src/app/api/upload/route.ts:41-50 | a successful key splits into washes, washer id, `YYYY-MM-DD`, slot, and 32 hex digits with the extension |
| UploadRoute.FileNameHasNoSlash | src/app/api/upload/route.ts:43 | the generated file name holds no `/` |
| CleanupS3.Cutoff | src/lib/cleanupS3.ts:21-22 | the current time less `daysOld` whole days; the premise of KeptAtCutoff |
| CleanupS3.Aged | src/lib/cleanupS3.ts:39 | a modification time present and strictly before the cutoff; what AgedObjects keeps |
| CleanupS3.AgedObjects | src/lib/cleanupS3.ts:38-39 | keeps exactly the listed objects with a modification time before the cutoff |
| CleanupS3.Keys | src/lib/cleanupS3.ts:40 | one key per object, in order |
| CleanupS3.CleanupOldImages | src/lib/cleanupS3.ts:9-59 | a delete request is never sent with an empty key list |
| CleanupS3.Defaults | src/lib/cleanupS3.ts:10 | no options means 30 days and the `washes` prefix |
| CleanupS3.DeleteSet | src/lib/cleanupS3.ts:20-53 | the deleted keys are exactly those of the aged objects; no request iff there are none; a throw iff the delete fails |
| CleanupS3.KeptAtCutoff | src/lib/cleanupS3.ts:39 | an object modified exactly at the cutoff, or with no time, is kept |
| CleanupS3.AgedAppend | src/lib/cleanupS3.ts:38-40 | the filter distributes over concatenation, so listing order is kept |
| CleanupS3.AgedIsSubsequence | src/lib/cleanupS3.ts:38-40 | the objects to delete are a subsequence of the listing |
| CleanupS3.NothingOldNoDelete | src/lib/cleanupS3.ts:32-45 | an empty listing or one with nothing aged sends no delete request |
| CleanupS3.ReferencedKeysNotSpared | src/lib/cleanupS3.ts:37-53 | an aged object is deleted even when a record refers to its key |
| CleanupS3.ListErrorRethrown | src/lib/cleanupS3.ts:55-58 | a failure of the listing under the given or default prefix is passed on to the caller |
| CleanupRoute.ValidDays | src/app/api/cleanup/route.ts:15 | `daysOld` is present, non-zero and at least 1; the premise of InvalidDaysDoesNotRun and ValidDaysRuns |
| CleanupRoute.SuccessMessage | src/app/api/cleanup/route.ts:25 | the reply text; MessageNamesDays states that the day count reads back out of it |
| CleanupRoute.Post | src/app/api/cleanup/route.ts:6-34 | a message only for a manager with a valid `daysOld`; failures are 400, 401 or 500 |
| CleanupRoute.UnauthorizedDoesNotRun | src/app/api/cleanup/route.ts:9-11 | a non-manager gets 401 and storage is not touched |
| CleanupRoute.InvalidDaysDoesNotRun | src/app/api/cleanup/route.ts:15-20 | a missing, zero or negative `daysOld` gives 400 and storage is not touched |
| CleanupRoute.ValidDaysRuns | src/app/api/cleanup/route.ts:22-26 | a valid request sweeps with that `daysOld` and the default prefix; 500 iff the sweep throws, else the message |
| CleanupRoute.MessageNamesDays | src/app/api/cleanup/route.ts:24-26 | the number in the message reads back as the requested days |
| WashesRoute.WashTypeFromName | src/app/api/washes/route.ts:34-35 | a wash type is accepted iff it is basic, premium or deluxe |
| WashesRoute.FindDriver | src/app/api/washes/route.ts:22-24 | the driver found has that id and the driver role; if none, no row with that id is a driver |
| WashesRoute.MissingField | src/app/api/washes/route.ts:17 | one of the six fields is falsy, a zero price included; the premise of MissingFieldBeforeLookup |
| WashesRoute.CheckRequest | src/app/api/washes/route.ts:9-40 | an accepted request comes from a washer, has every field, a real driver and a known type; rejections are 400, 401 or 500 |
| WashesRoute.UnauthorizedFirst | src/app/api/washes/route.ts:10-12 | a non-washer gets 401 whatever the body |
| WashesRoute.MissingFieldBeforeLookup | src/app/api/washes/route.ts:16-19 | a missing field (zero price included) gives 400 whatever the user table holds |
| WashesRoute.DriverBeforeWashType | src/app/api/washes/route.ts:21-40 | an invalid driver is reported before an invalid wash type |
| WashesRoute.AcceptedWhenChecksPass | src/app/api/washes/route.ts:16-40 | once the checks pass the request is accepted, whatever the sign of the price |
| WashesRoute.FindOrCreateTruck | src/app/api/washes/route.ts:42-54 | the plate's registered truck is reused with its table unchanged, or a truck with the next id, the plate and the driver is appended |
| WashesRoute.RecordWash | src/app/api/washes/route.ts:42-92 | the writes of an accepted request: truck first; then the record and its two images, or 500 without them for an unknown washer |
| WashesRoute.Post | src/app/api/washes/route.ts:7-102 | rejections write nothing; an accepted wash reuses or creates the plate's truck, then writes the record with its two images, or answers 500 for an unknown washer and keeps the new truck |
| WashesRoute.SortedPairwise | src/app/api/washes/route.ts:123-125 | newest first holds for every pair, not only neighbours |
| WashesRoute.RecordsOf | src/app/api/washes/route.ts:111-114 | exactly the records of that washer |
| WashesRoute.InsertByDate | src/app/api/washes/route.ts:123-125 | inserting into a newest-first list keeps it newest first and adds exactly that record |
| WashesRoute.SortByDateDesc | src/app/api/washes/route.ts:123-125 | the result is newest first and a permutation of the input |
| WashesRoute.Get | src/app/api/washes/route.ts:104-128 | 401 iff not a washer; a washer always gets a record list, newest first, and with an id, a permutation of exactly that washer's records |
| UsersRoute.LiveUsers | src/app/api/users/route.ts:15-20 | exactly the users that are not soft-deleted |
| UsersRoute.Get | src/app/api/users/route.ts:8-26 | 401 iff not a manager; a manager gets the list of exactly the users that are not soft-deleted |
| UsersRoute.Patched | src/app/api/users/route.ts:39-43 | a patch keeps the id, sets each field it names and keeps the others; it fails iff the role is not an enum value |
| UsersRoute.EmptyPatchKeepsRow | src/app/api/users/route.ts:39-43 | an empty body changes nothing |
| UsersRoute.PatchIdempotent | src/app/api/users/route.ts:39-43 | applying a patch twice is applying it once |
| UsersRoute.Put | src/app/api/users/route.ts:28-50 | 401, then 400 for a missing id, then 500 for a bad body, unknown id, bad role or taken email; else only that row becomes the patched row |
| UsersRoute.SoftDeleted | src/app/api/users/route.ts:74-79 | the row with `deletedAt` set to the current time; what Delete writes and DeleteHidesOnlyThatUser hides |
| UsersRoute.Delete | src/app/api/users/route.ts:52-86 | 401, 400, then 404 for an unknown or already deleted user; else only that row's `deletedAt` is set to now |
| UsersRoute.DeleteHidesOnlyThatUser | src/app/api/users/route.ts:64-79 | after a soft delete, that user leaves the list and no one else does, and a second delete answers 404 |
| UsersRoute.RestoreRelists | src/app/api/users/route.ts:39-43 | a patch setting `deletedAt` to null brings a soft-deleted user back into the list |
| Auth.BootstrapRole | src/lib/auth.ts:32-33 | manager iff the table is empty, never washer |
| Auth.FullName | src/lib/auth.ts:39 | never empty; the name if truthy, else the text before the first `@`, else "Unknown User" |
| Auth.NewUserRow | src/lib/auth.ts:36-43 | keeps the given email, has no password and no deletion, is manager iff the count is 0 |
| Auth.BootstrapStep | src/lib/auth.ts:31-43 | adding a `createUser` row keeps the table a manager followed by drivers |
| Auth.CountRole | src/lib/auth.ts:32-33 | the number of rows with a role is its multiplicity in the table's role column |
| Auth.ExactlyOneManager | src/lib/auth.ts:32-33 | such a table has exactly one manager, no washer, and drivers for the rest |
| Auth.CreateUser | src/lib/auth.ts:30-44 | inserts the new row iff its id and email are free, counting soft-deleted rows, and keeps the manager-then-drivers shape |
| Auth.Jwt | src/lib/auth.ts:73-91 | at sign-in, copies the database id and role of the user with that email, and the id token if truthy; otherwise the token is unchanged |
| Auth.SessionCallback | src/lib/auth.ts:92-110 | refreshes id and role from the user with the session's email, and copies a truthy id token from the JWT |
| Auth.FindByEmailOfRow | src/lib/auth.ts:76-78 | with unique emails the lookup finds the row with that email |
| Auth.SignIn | src/lib/auth.ts:66-71 | a sign-in is admitted iff the provider is google; the premise of SignInLandsOnHome |
| Auth.SignInLandsOnHome | src/lib/auth.ts:66-110 | for any account `signIn` admits, the first user is routed to the manager dashboard and later users to the driver dashboard, and this module's session passes that role's gate |
| Auth.TokenRoleIsStale | src/lib/auth.ts:73-110 | after a role change, the token keeps the old role while this module's session has the new one |
| Auth.SoftDeletedKeepsRole | src/lib/auth.ts:92-102 | a soft-deleted user keeps a session that passes their role's gate |
| Auth.SessionIdWithRole | src/lib/auth.ts:92-102 | the session gets an id iff it gets a role |
| FederatedLogout.ContinueTarget | src/app/api/auth/federated-logout/route.ts:26 | the return address ends with `/auth/signout-complete` |
| FederatedLogout.Get | src/app/api/auth/federated-logout/route.ts:5-35 | `/` with "no_session" iff there is no session; `/` with "error" iff the session has no user; `/login` with "no_id_token" iff there is no id token; otherwise Google's logout URL with the serialized return address and no reason |
| FederatedLogout.ContinueRoundTrip | src/app/api/auth/federated-logout/route.ts:22-30 | the Google URL has a single query parameter, whose value decodes back to the return address when the base URL is ASCII |

## Left out

- The `withAuth` wrapper and its `authorized` callback are library code. Only the inner `middleware` function and the matcher are modelled. The wrapper sets no `pages` option, so it sends a request without a token to NextAuth's default `/api/auth/signin?callbackUrl=…`, which the mounted handler forwards to `/login`: the login page in two hops. Because `authorized` returns `!!token`, the inner function's missing-token branch (Middleware.NoTokenGoesToLogin) never runs in practice; the model keeps it as written.
- NextAuth internals are not modelled: cookies, JWT signing, the cookie settings, the Google `profile` mapping, and the adapter's other methods.
- Failures of `getServerSession`, and I/O faults of the database and of the network, are not modelled. The routes turn them into 500 (or into the "error" reason of federated logout).
- Concurrency is not modelled. In particular, two first sign-ins racing on the user count are out of scope; the bootstrap rule is proved for calls made one after another.
- Auth.CreateUser: the id Prisma generates is a parameter. A collision with an existing id makes the insert fail, which real generated ids never do.
- CleanupS3.Cutoff: subtracts whole days of 86400000 ms. It does not model `setDate` in local time, where a day across a daylight-saving change is 23 or 25 hours.
- FormUrl.DecodeEncode: the round trip is proved for ASCII text only. Multi-byte UTF-8 decoding is not modelled.
- Prices are integers. Prisma's `Decimal` is not modelled, because only the price's falsiness is checked.
- JSON values of the wrong type are not modelled (a number where a string is expected, a string `daysOld`). Bodies are typed records.
- UsersRoute.Put: the patch covers email, fullName, role, passwordHash and deletedAt only. Prisma's rejection of unknown fields and writes to id or timestamps are not modelled.
- The `include` expansions (truck, driver, washer, images) of the wash routes are not modelled. The route returns the written rows.
- UploadRoute.Post: the route reads the clock twice, for the key date and for the metadata. The model uses one ISO text for both.
- WashesRoute.Get: without a session id, Prisma drops the `washerId: undefined` condition and the list covers every washer's records. The contract states the filter only when the session has an id. The route reads the session with the credentials configuration of `src/app/api/auth/[...nextauth]/route.ts`, which is not part of this model. Its callbacks copy id and role from the authorized user together, so a session with a role has an id there too; Auth.SessionIdWithRole proves the same only for the Google configuration's `session` callback.
- CleanupRoute.Post, UploadRoute.Post: `daysOld` and `fileSize` are integers. Fractional JSON numbers are not modelled: `daysOld: 0.5` is refused like 0, but `daysOld: 1.5` passes the check and names "1.5 days" in the reply, while `setDate` truncates the resulting day of the month toward zero: the cutoff is two days back, or one day back on the first of a month.
- Numerals.NatToString: prints every number in plain decimal. JavaScript prints numbers of 1e21 and above in exponent form, so the cleanup reply for such a `daysOld` differs.
- The credentials configuration in `src/app/api/auth/[...nextauth]/route.ts` (`authorize` with bcrypt, its `jwt`, `session` and `redirect` callbacks) is not part of this model; the upload and wash routes take the session it yields as a parameter.
- The Prisma schema file is not part of this model. Tables, unique constraints (user id and email, truck plate) and auto-increment ids follow the code's use of them.
- These are not modelled: the edit route for a single wash, the view-URL and test upload routes, the pages and components, and the scripts.
