# GoAuth credential and session core, in Dafny

This project models the server of GoAuth (`server/main.go`), a small
credential-and-session service. Users sign up with a user name and a password.
They authenticate to receive an opaque session token, and sign out by revoking
it. The model covers four parts and proves what each promises:

- **Validator.** `PW_REGEX`, `^[a-zA-Z0-9-#:&]{1,25}$`, is applied to every user
  name and password. `Validator.MatchesRepeat` matches it structurally: a
  bracketed class of ranges and literals, a bounded repetition and both anchors.
  It is proved equal to the plain statement "1 to 25 bytes, each a letter, a
  digit or one of `- # : &`".
- **Encoder.** `encrypt` is `base64.StdEncoding.EncodeToString`: padded base64
  as in section 4 of RFC 4648. `Base64.StdEncode` encodes by recursion over
  3-byte groups. Its contract gives the output length `4 * ceil(n / 3)` and the
  output alphabet. A reference decoder, `Base64.StdDecode`, inverts it, and the
  round trip proves the encoding injective. `StdDecode` is not part of the
  server; it exists only for that proof.
- **Document store.** `Store.Database` is a class with two fields of type
  `seq`: the `credentials` and `tokens` collections. Its methods are
  `find_user`, `add_user`, `add_token` and `revoke_token`. Mongo's filters
  follow the `omitempty` tags, so an empty field constrains nothing.
  Mongo promises only the first match in natural order, and natural order
  need not be insertion order. The model fixes the choice: `FindOne` and
  `DeleteOne` act on the first selected document in sequence (insertion)
  order. The choice matters only when one user has several token records,
  which can happen only after a lookup error in `add_token`. Each kind of store error is a `bool` input, and it has the effect the
  Go code gives it.
- **Handlers.** `postSignUp`, `postAuth` and `postSignOut` each map the request
  fields and the database to a status code, a body and a new database. Three
  client methods prove end-to-end scenarios over them.

Go strings are byte sequences (`GoStrings.GoString`). Go's regexp matches runes
and the model matches bytes. The answers agree because the class is pure
ASCII: a byte of a multi-byte or malformed UTF-8 sequence never matches it.

Inputs that stand for the environment:
- `generated` stands for the result of `GenerateToken`. `Store.IsGeneratedToken`
  (32 lower-case hex digits) describes it, and the scenarios require it.
- `failed` is any error in `find_user`: ping, `FindOne` ("no documents"
  included) or disconnect. Any of them makes the answer false. Counting a
  connect error as `failed` too is a simplification of this model: after a
  failed `mongo.Connect` the code goes on to call `Ping` on a possibly nil
  client and does not reach `return return_val` (server/main.go:145-150).
- `sessionFailed` is a ping or disconnect error in `add_user`. The answer
  becomes false, but the insert still happens.
- `insertFailed` and `deleteFailed` mean the collection call failed and nothing
  changed.
- `lookupFailed` is an error from `add_token`'s `FindOne`. The code treats it
  like "not found" and inserts a new token anyway. So the invariant "at most one
  token per user" is proved only for calls without a lookup error.
- `add_token` and `revoke_token` only log ping and disconnect errors, so those
  errors have no input.

Behaviour of the code that a reader might not expect:
- `add_user` inserts even when the ping failed, and reports false.
- `add_token` inserts a token after any lookup error, not only when none exists.
- Revoking with an empty token deletes the user's first token record, whatever
  that record's token is (`omitempty`).
- `find_user` with an empty field would match any value in that field. No
  handler can pass one: encoded validated fields are non-empty.

## Model

| member | source | states |
|---|---|---|
| `Validator.MatchesRepeatIff` | server/main.go:24 | a text matches `^C{min,max}$` iff its length is between min and max and every byte is in the class C |
| `Validator.PwClassIsAllowedBytes` | server/main.go:24 | the parsed class `[a-zA-Z0-9-#:&]` (with `-` after `0-9` read as a literal) holds exactly letters, digits and `- # : &` |
| `Validator.MatchesPwRegexIff` | server/main.go:22-24 | `MatchString(PW_REGEX)` accepts a text iff it has 1 to 25 bytes, each a letter, a digit or one of `- # : &` |
| `Validator.RejectsEmpty` | server/main.go:22-24 | the empty text is rejected (MIN_PW_LEN is 1) |
| `Validator.RejectsOverlong` | server/main.go:22-24 | every text longer than MAX_PW_LEN (25) is rejected |
| `Validator.AcceptsMaximalLength` | server/main.go:22-24 | a 25-byte text of allowed bytes is accepted |
| `Validator.RejectsForeignByte` | server/main.go:24 | one byte outside the class anywhere makes the text rejected |
| `Validator.RejectsTrailingNewline` | server/main.go:24 | `$` is end of text: any text followed by a newline is rejected |
| `Base64.EncodeLast` | server/main.go:137 | the group for the last one or two bytes is four bytes: one letter more than the bytes it encodes, then `=` padding (two `=` after one byte, one after two) |
| `Base64.RfcTestVectors` | server/main.go:137 | `StdEncode` gives the test vectors of section 10 of RFC 4648: "f" is "Zg==", "fo" is "Zm8=", "foo" is "Zm9v", "foob" is "Zm9vYg==", which ties the letter table and bit layout to the standard |
| `Base64.StdEncode` | server/main.go:132-139 | the encoding of n bytes has 4 * ceil(n / 3) bytes, each in `A-Z a-z 0-9 + /` or the padding `=`; so a non-empty input has a non-empty encoding |
| `Base64.DecodeEncode` | server/main.go:132-139 | decoding the encoding gives back the input: the encoding loses nothing |
| `Base64.StdEncodeInjective` | server/main.go:129-139 | inputs with equal encodings are equal, so the stored "consistent hash" identifies its input |
| `Store.FirstSelected` | server/main.go:160 | FindOne's choice: returns the first position, in sequence order, whose document the filter selects, or reports that none does |
| `Store.DeleteOne` | server/main.go:262-264 | nothing selected leaves the collection unchanged; otherwise exactly the first selected document in sequence order is removed and the rest keep their order |
| `Store.AppendUnfoundKeepsOneTokenPerUser` | server/main.go:224-240 | inserting a token for a user the lookup did not find keeps at most one token record per user |
| `Store.DeleteOneKeepsOneTokenPerUser` | server/main.go:262-264 | deleting keeps at most one token record per user |
| `Store.RevokedUserHasNoToken` | server/main.go:251-275 | with one token per user, revoking a stored (user, token) pair leaves no token record for that user |
| `Store.EmptyTokenRevokesFirstOfUser` | server/main.go:36-39 | an empty token is omitted from the filter, so revoking removes the user's first token record in sequence order, whatever its token |
| `Store.Database.FindUser` | server/main.go:141-174 | true iff no step failed and some credentials record matches the user and the password; changes nothing |
| `Store.Database.AddUser` | server/main.go:176-209 | appends exactly the pair, with no existence check, unless the insert failed; true iff neither the session nor the insert failed; tokens untouched |
| `Store.Database.AddToken` | server/main.go:211-249 | an existing token record for the user: returns `""`, nothing changes; otherwise appends (user, generated) and returns it, or returns `""` with nothing added if the insert failed; credentials untouched; keeps one token per user when the lookup did not fail |
| `Store.Database.RevokeToken` | server/main.go:251-275 | the tokens become DeleteOne of them with the filter (user, token), unless the delete failed; credentials untouched; keeps one token per user |
| `Handlers.PostSignUp` | server/main.go:56-79 | invalid user or password: 400 and nothing changes; otherwise exactly (encrypt(user), encrypt(pass)) is appended unless the insert failed, and the answer is 500 on any store error, 200 otherwise |
| `Handlers.PostAuth` | server/main.go:81-108 | invalid input: 400; no matching credential or a find error: 403; in both cases nothing changes; otherwise 200 with add_token's result for encrypt(user); credentials never change |
| `Handlers.PostSignOut` | server/main.go:110-127 | invalid user: 400 and nothing changes; otherwise 200, and the tokens become DeleteOne with (encrypt(user), raw token) |
| `Handlers.SignUpThenAuth` | server/main.go:56-108 | on any database, a successful sign-up makes authentication with the same pair answer 200, never 403, when find_user reports no store error |
| `Handlers.Lifecycle` | server/main.go:56-127 | on an empty store: sign-up gives 200; the first authentication returns the generated token; the second returns `""`; sign-out gives 200; a later authentication returns a new token |
| `Handlers.MismatchedCredentials` | server/main.go:81-105 | after signing up on an empty store, authenticating with any other pair (another password, or a user never signed up) gives 400 or 403, never a token |

## Left out

- HTTP routing with gin, TLS (`ListenAndServeTLS`), CORS and the `ping` handler are transport plumbing (server/main.go:41-54).
- Reading and parsing the JSON request body is left out (server/main.go:57-61 and the like). Fields are assumed present and of type string, so the panicking `.(string)` assertions are not modelled.
- Connecting to Mongo, pinging, disconnecting and logging are left out. Their errors become the `bool` inputs described above.
- The continuation after a failed `mongo.Connect` is not modelled. That code goes on to call methods on a possibly nil client (server/main.go:145-150 and the like).
- `GenerateToken` is not modelled inside (server/main.go:277-285). bcrypt with a random salt and then MD5 is a foreign, nondeterministic computation, so its result is the `generated` input.
- Concurrent requests are not modelled. Only sequential calls are. So the race between two authentications of the same user, which can both insert a token, is not captured.
- `regexp.Compile` is not modelled. The pattern's parse is written out as `Validator.PwClass`, `MinPwLen` and `MaxPwLen`.
- Determinism of `encrypt` has no separate lemma. Every Dafny function is deterministic.
- The JSON encoding of response bodies is left out. A body is the message text or the token.
- `client/src/App.js` is a React form with no logic to model, so it is not part of this model.
