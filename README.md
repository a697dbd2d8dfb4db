# A verified model of the youth mental-health chat backend

The backend (`server.js`) is a small Express service over two MongoDB
collections. It offers:
- registration and login, with bcrypt-hashed passwords and JSON Web Tokens;
- `authenticateToken`, a middleware that turns a bearer header into the
  caller's claims;
- three protected routes: the caller's profile, a chat endpoint that answers
  every message with a rule-based reply and logs the exchange, and the
  caller's most recent exchanges.

The keyword rules that choose the reply are in `generateReply`.

This project models that core in Dafny and proves what the handlers promise.
The modules match the program's parts:

| file | module | what it holds |
|---|---|---|
| `wrappers.dfy` | `Wrappers` | `Option` |
| `text.dfy` | `Text` | the JavaScript string operations the backend relies on: `toLowerCase`, `trim`, `split(' ')`, `includes` |
| `credentials.dfy` | `Credentials` | e-mail normalization, bearer-header extraction, the contracts of bcrypt and the token library |
| `reply.dfy` | `Reply` | the keyword classifier and `generateReply` |
| `store.dfy` | `Store` | user and session documents, the lookups, the unique index on e-mail, the sessions query (filter, sort, limit) |
| `server.dfy` | `Server` | the `Request` object, the `Backend` class, whose fields are the two collections, and its handlers and routes, plus client scenarios |

The state-changing parts are written imperatively:
- `Backend.Register` and `Backend.Chat` append to the `users` and `sessions`
  fields. Their postconditions give the whole new state.
- `Backend.AuthenticateToken` sets `req.user`.
- `Reply.GenerateReply` builds its reply by successive concatenation.

Everything else is a function: normalization, header splitting, the keyword
conditions, login, the profile lookup and the sessions query. The proved
properties are stated about those functions.

`Backend.Valid()` is the invariant every handler keeps. It says:
- the hasher and the token service satisfy their contracts;
- no two users share an e-mail or an id;
- every stored e-mail is already normalized;
- sessions appear in creation order;
- ids and creation times come from the backend's `clock`.

## Model

| member | source | states |
|---|---|---|
| Text.Lower | server.js:59 | in the model, the lower-cased string has the input's length and each of its characters is `LowerChar` of the input's character at the same index |
| Text.IsSpace | server.js:59 | the characters `trim` removes: the ECMAScript white-space and line-terminator code points (U+0009 to U+000D, U+0020, U+00A0, U+1680, U+2000 to U+200A, U+2028, U+2029, U+202F, U+205F, U+3000 and U+FEFF) |
| Text.LowerChar | server.js:101 | an ASCII or Latin-1 capital becomes the lower-case letter 32 code points above it, every other character is unchanged, and the result is white space exactly when the input is |
| Text.Trim | server.js:59 | the trimmed string neither starts nor ends with white space |
| Text.TrimIsSlice | server.js:59 | `trim` keeps one contiguous slice of its input and removes only white space around it |
| Text.TrimUnique | server.js:59 | any slice with white-space margins and non-white-space ends is the trimmed string, so these properties determine `trim` |
| Text.TrimIgnoresPadding | server.js:76 | white space added around a string does not change its trimmed form |
| Text.TrimIdempotent | server.js:76 | trimming twice is trimming once |
| Text.SkipSpace | server.js:59 | the index where leading white space ends: everything before it is white space, the character at it is not |
| Text.SkipSpaceBack | server.js:59 | the index where trailing white space begins, symmetrically |
| Text.Split | server.js:44 | `split(' ')` yields at least one piece and no piece contains the separator |
| Text.JoinSplit | server.js:44 | joining the pieces of a split with the separator gives back the string |
| Text.SplitJoin | server.js:44 | splitting joined separator-free pieces gives back the pieces |
| Text.SplitAfterPlain | server.js:44 | separator-free characters in front stay at the front of the first piece |
| Text.Includes | server.js:109-115 | `includes` is true exactly when the keyword occurs at some index |
| Credentials.HasherSound | server.js:78 | what the model assumes of bcrypt: `compare` accepts a password against any hash `hash` made from it, whatever the salt (`hash` is called at line 58) |
| Credentials.TokenSound | server.js:46 | what the model assumes of jsonwebtoken (`verify` here, `sign` at lines 62 and 81): a signed token is a non-empty word without spaces that verifies to the claims it was signed for, and a token verifies to some claims only if it is the token signed for them |
| Credentials.NormalizeEmail | server.js:59 | the normalized address neither starts nor ends with white space |
| Credentials.NormalizedIsLower | server.js:59 | every character of a normalized address is lower case |
| Credentials.NormalizedIsKey | server.js:59 | normalizing always yields an address of the stored shape |
| Credentials.KeyIsNormal | server.js:76 | an address of the stored shape is its own normalization |
| Credentials.NormalizeIdempotent | server.js:76 | normalizing a stored address changes nothing |
| Credentials.NormalizeIgnoresCaseAndPadding | server.js:76 | addresses that differ only in letter case and surrounding white space have the same key |
| Credentials.BearerToken | server.js:43-45 | a token, when found, is a non-empty word without spaces |
| Credentials.BearerTokenOf | server.js:43-45 | the header `<word> <token>[ <anything>]` yields exactly `<token>` |
| Credentials.BearerTokenShape | server.js:43-45 | conversely, a found token is the second space-separated word of the header |
| Credentials.NoSpaceNoToken | server.js:44-45 | a header without a space gives no token, so the middleware answers 401 |
| Reply.Advice | server.js:110-118 | the advice sentence appended for each keyword group, exactly as the source spells it |
| Reply.AdviceTellsTopic | server.js:109-119 | two keyword groups give the same advice exactly when they are the same group |
| Reply.Classify | server.js:109-119 | each keyword group is chosen exactly when the lower-cased message mentions one of its keywords and no earlier group's keyword; otherwise the default group is chosen |
| Reply.GenerateReply | server.js:100-122 | the reply is the picked empathy opening, then the chosen group's advice, then the fixed closing sentence |
| Reply.ClassifyIgnoresCase | server.js:101 | messages equal up to letter case get the same advice |
| Reply.UpperCaseKeyword | server.js:101-110 | "I feel ANXIOUS" gets the anxiety advice |
| Reply.MentionsThree | server.js:109 | a three-keyword group is mentioned exactly when one of the three `includes` tests succeeds |
| Reply.MentionsTwo | server.js:113 | the same for two-keyword groups |
| Store.FindByEmail | server.js:76 | `findOne({email})` finds a user with that e-mail, and finds nothing exactly when no user has it |
| Store.FindById | server.js:92 | `findById` finds a user with that id, and finds nothing exactly when no user has it |
| Store.FindAfterAppend | server.js:60 | after a save, lookups for other addresses are unchanged and a new address finds the new user |
| Store.AppendNewUser | server.js:27 | saving a user with a new e-mail and id keeps the unique index, and that e-mail then finds exactly that user once |
| Store.EmailDeterminesUser | server.js:27 | under the unique index, one e-mail belongs to one user |
| Store.IdDeterminesUser | server.js:92 | one id belongs to one user |
| Store.CountUnderUniqueIndex | server.js:27 | under the unique index an e-mail is held by exactly one user when it is found, and by none otherwise |
| Store.PublicView | server.js:61 | the signed payload holds the user's id, name and e-mail (its partner `Store.ViewsOmitHash` shows it never depends on the hash) |
| Store.ProfileOf | server.js:92 | the profile document is the user's id, name, e-mail and creation time, that is, the user document without its password field |
| Store.ViewsOmitHash | server.js:61 | the signed payload and the profile do not depend on the password hash |
| Store.Owned | server.js:140 | `find({userId})` returns exactly the caller's sessions |
| Store.OwnedAppend | server.js:130 | a saved session joins its owner's sessions at the end and no one else's |
| Store.Insert | server.js:140 | inserting keeps the newest-first order and adds exactly one element (as a multiset) |
| Store.SortNewestFirst | server.js:140 | `sort({createdAt: -1})` orders newest first and is a permutation |
| Store.Limit | server.js:140 | `limit(n)` keeps the first `min(n, length)` elements |
| Store.History | server.js:140 | the listing holds at most `limit` sessions, each one of the caller's sessions in the log (the order and the cut are stated in `Store.HistorySpec` and `Store.HistoryStrict`) |
| Store.HistorySpec | server.js:140 | the listing holds only the caller's sessions in newest-first order; its length is the caller's count capped at the limit; any session it drops is no newer than every session it shows; it shows all when the caller owns no more than the limit |
| Store.HistoryStrict | server.js:140 | with distinct creation times the listing is strictly newest first |
| Store.HistoryIgnoresOthers | server.js:140 | another user's new session does not change the caller's listing |
| Store.HistoryOfOne | server.js:140 | a user with one session is shown exactly that session |
| Store.OwnedDistinct | server.js:140 | filtering keeps distinct creation times distinct |
| Store.SortStrict | server.js:140 | sorting distinct creation times gives a strictly descending order |
| Server.ChronologicalDistinct | server.js:36 | in a log kept in creation order, a creation time identifies a session |
| Server.Request.constructor | server.js:43 | a new request carries its header and body and has no caller attached |
| Server.Backend.constructor | server.js:39-40 | the collections start empty and the invariant holds |
| Server.Backend.Register | server.js:54-69 | an empty name, e-mail or password gives 400 "Missing fields" and changes nothing; a normalized e-mail already stored gives 400 "Email already registered" and changes nothing; otherwise exactly one user is appended, with the normalized e-mail and the hash, and the reply carries `{id, name, email}` and a token signed for it; afterwards exactly one user holds that e-mail |
| Server.Backend.Login | server.js:72-87 | an empty e-mail or password gives 400 "Missing fields"; an unknown e-mail and a wrong password give the same 400 "Invalid credentials"; a matching password gives that user's `{id, name, email}` and a token signed for it |
| Server.Backend.StoredUserLogsIn | server.js:76-82 | a stored user logs in with the password its hash was made from and any non-empty address that normalizes to the stored one |
| Server.Backend.LoginIgnoresCaseAndPadding | server.js:76 | login answers a case or white-space variant of an address exactly as it answers the address itself |
| Server.Backend.LoginBySameKey | server.js:76 | two non-empty addresses with the same key log in alike |
| Server.Backend.Caller | server.js:44-47 | a header identifies a caller exactly when it yields a bearer token that the token library verifies, and the caller is the claims the library returns |
| Server.Backend.AuthenticateToken | server.js:42-51 | no bearer token gives 401 "Missing token"; a token the library rejects, for whatever reason, gives 403 "Invalid token"; both leave the request unchanged; a verified token attaches its claims and lets the handler run |
| Server.Backend.IssuedTokenAccepted | server.js:43-48 | a token this backend issued, after any one-word scheme, passes the middleware with its claims |
| Server.Backend.OnlyIssuedTokensPass | server.js:43-48 | conversely, a header identifies a caller with some claims exactly when its bearer token is the one signed for those claims, so a request is served only as a user a token was issued for |
| Server.Backend.GetProfile | server.js:90-97 | the caller's user document without its hash, or `null` when no user has the caller's id |
| Server.Backend.Chat | server.js:124-136 | an empty message gives 400 "No message" and appends nothing; otherwise exactly one session is appended, with the caller's id from the verified claims, the message as sent and the returned reply, and the response carries that reply and the new session's id |
| Server.Backend.ListSessions | server.js:138-146 | only the caller's sessions, strictly newest first, as many as the caller has capped at 100, all when there are at most 100; any session left out is older than every session shown |
| Server.Backend.ProfileRoute | server.js:90 | the middleware runs first, and the profile handler runs only for a verified caller |
| Server.Backend.ChatRoute | server.js:124 | the middleware runs first; a rejected request changes no store; a verified caller's chat is the handler's |
| Server.Backend.SessionsRoute | server.js:138 | the middleware runs first, and the listing is the handler's for a verified caller |
| Server.NewAccount | server.js:54-63 | registering on a fresh backend stores one user with id 0 and returns its claims and token |
| Server.FirstVisit | server.js:124-131 | the token returned by register authorizes a chat, which gets the reply for the message and session id 1 |
| Server.FirstChat | server.js:124-131 | a token holder's first chat is stored as the backend's only session |
| Server.ChatThenList | server.js:138-141 | chat, then list, returns exactly that one exchange |
| Server.SecondRegistration | server.js:59-65 | registering a case or white-space variant of a stored address is refused, and logging in with the variant and the first password authenticates the first registration's user; that the token is also the same one is an artefact of the model's tokens carrying no issue time |

## Left out

- Password hashing is modelled only by its contract. A hash made from a password with any salt accepts that password. The random salt is a parameter. bcrypt's cost factor and its internals are not modelled.
- The hasher is not assumed to reject other passwords. bcrypt ignores password bytes past the 72nd, so passwords that share their first 72 bytes match the same hash.
- Token signing and verification are modelled by their contract. A signed token verifies to its claims and contains no space, and no other string verifies to those claims, which is how the model states that a tampered or forged token is rejected. The encoding, the secret and the signature algorithm are not modelled.
- Token expiry is not modelled. `jwt.sign` embeds the issue time and a 7-day expiry, but in the model a token is a function of its claims alone and a token the backend issued verifies for ever. `Expired` stands only for tokens from elsewhere. So the model does not capture that an old token is refused with 403, nor that two logins get different tokens.
- MongoDB, the connection, `process.exit` and concurrent requests are not modelled. Each handler is one atomic step on in-memory sequences.
- The unique index is modelled as a lookup before the insert. Its atomicity under concurrent registrations is not modelled.
- `_id` values and `Date.now` come from one strictly increasing counter. Two sessions created in the same millisecond, which the real `sort` may order either way, are not modelled. Ids are numbers, not ObjectIds.
- The 500 "Server error" paths and `console` logging are not modelled. They come from I/O failures, which the model has none of, and also from the non-string inputs left out below: a non-string e-mail makes `toLowerCase` throw (server.js:59 and :76), bcrypt rejects a non-string password (server.js:58 and :78), and a non-string message makes `generateReply` throw (server.js:101).
- Express wiring, CORS, body parsing, static and SPA serving, and `listen` are not modelled. They are plumbing.
- `Math.random` is the `pick` parameter of `GenerateReply`, `Chat` and `ChatRoute`.
- A JSON body field that is missing is modelled as the empty string, since the handlers treat both as falsy. Non-string fields (numbers, objects) are not modelled.
- Strings are modelled as sequences of Unicode scalar values. JavaScript strings are sequences of UTF-16 code units, and a JSON body can carry a lone surrogate such as "\uD800", which the model cannot represent.
- Text.LowerChar: lower-cases only ASCII and Latin-1 capitals. `toLowerCase` maps every Unicode capital, and the other mappings are not modelled.
- Text.Lower: keeps the length, which `toLowerCase` does not always do: U+0130 becomes the two characters "i" and U+0307. Length-changing mappings are not modelled, so a message such as "WORR\u0130ED", which contains "worri" once lowered in JavaScript and gets the anxiety advice, gets the default advice in the model.
- The React front end (App.jsx, Dashboard.jsx, Login.jsx, Register.jsx, main.jsx) is not part of this model. It only calls the API and renders the results.

Behaviour that follows the code rather than the intended design:
- The scheme word before the token is not checked. `split(' ')[1]` takes the second word whatever the first one is.
- Two spaces after the scheme give an empty second word, hence 401.
- The chat handler refuses only the empty message. A message made of white space is accepted.
- An address made only of white space passes the register check and is stored under the empty key. Login can reach that user with any white-space address, but not with the empty one, which is refused as "Missing fields". `Server.Backend.StoredUserLogsIn` therefore requires a non-empty address.
- The second empathy opening is kept exactly as the source file spells it: its dash is the three characters U+00E2 U+20AC U+201D.
