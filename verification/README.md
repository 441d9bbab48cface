# ignite-call registration, modelled in Dafny

This project models the part of ignite-call that has behaviour worth stating.
That is the path from claiming a username on the home page to a stored user with an identity cookie:

- the username and name rules of the two forms (`claimUsernameFormSchema`, `registerFormSchema`);
- the redirect from the claim form to the register page, and the register page's pre-fill from the query string;
- the register page's POST and its reaction to the outcome;
- the `/api/users` handler: a method gate, an exact-match lookup, a 400 conflict, or a create plus a 201 with a cookie.

Everything is a pure function over immutable values.

- `Wrappers` holds `Option` and `Result`.
- `JsText` holds JavaScript's `length`, which counts UTF-16 code units, and `toLowerCase` on ASCII.
- `UsernameRegex` models the pattern `/^([a-z\\-]+)$/i`.
  - Inside the class, `\\` is an escaped backslash and the final `-` is a literal hyphen.
  - With the `i` flag, the class admits ASCII letters of both cases, the hyphen, and also the backslash.
  - The forms' message says "letters and hyphens only". The model follows the pattern as written, and `UsernameRegex.BackslashAccepted` shows the backslash getting through.
- `ZodString` models a chain of `.min(n)` / `.regex(...)` checks with an optional lower-casing transform.
  - Every check runs, and each failing check reports its own issue, in chain order.
  - The transform runs only when no check failed.
- `RegisterPage` and `ClaimUsernameForm` each declare their own schema, as the two source files do, and the pure client logic around it.
  - The client actions are navigate, alert and nothing.
- `UsersApi` holds the handler over a store.
  - The store is a list of `User{id, name, username}` plus a counter that supplies fresh identifiers.
  - The invariant `Valid` says that usernames and ids are pairwise distinct and that every id is below the counter.
- `RegistrationFlow` chains these together.
  - axios' default status handling turns the handler's response into the outcome the page reacts to.
  - End-to-end lemmas follow a username from the claim form to the store.

Three behaviours of the code are worth calling out:

- **Server normalisation.** The handler stores `req.body.username` verbatim and looks it up by exact string (`UsersApi.NoServerSideValidation`, `UsersApi.LookupIsCaseSensitive`). A username submitted through the register form is refused when its lower-cased form is already stored, whichever way that entry got there. Only the forms' lower-casing makes the check case-insensitive (`RegistrationFlow.StoredLowerCaseBlocksForm`, `RegistrationFlow.CaseVariantRefused`).
- **Allowed characters.** The forms' message says letters and hyphens, but the pattern also admits a backslash (`UsernameRegex.BackslashAccepted`).
- **Other failures.** Any failure other than an error response carrying a non-empty `error` message is only logged, which is `NoAction` here.

The cookie set on success is named `@ignitecall:userId`.

## Model

| member | source | states |
|---|---|---|
| JsText.Utf16Length | src/pages/register/index.page.tsx:15 | The length `.min(3)` measures lies between the number of characters and twice that, and equals it when no character is outside the Basic Multilingual Plane |
| JsText.ToLower | src/pages/register/index.page.tsx:19 | `toLowerCase` keeps the length and lower-cases each character in place, mapping ASCII capitals to small letters and leaving every other character as it is |
| JsText.ToLowerNormalises | src/pages/register/index.page.tsx:19 | `toLowerCase` leaves no ASCII capital, and a string without capitals is its own lower case |
| JsText.ToLowerIdempotent | src/pages/register/index.page.tsx:19 | Lower-casing twice is the same as lower-casing once |
| UsernameRegex.ClassExactly | src/pages/register/index.page.tsx:16 | Under ECMAScript's ignore-case canonicalisation, the class `[a-z\\-]` matches exactly the ASCII letters of both cases, hyphen and backslash, and the executable test agrees |
| UsernameRegex.Matches | src/pages/register/index.page.tsx:16 | The anchored pattern `^([a-z\\-]+)$` with the `i` flag accepts exactly the non-empty strings whose every character is a letter, hyphen or backslash |
| UsernameRegex.MatchesLowered | src/pages/register/index.page.tsx:16-19 | A matching string still matches after lower-casing, and contains only ASCII |
| UsernameRegex.BackslashAccepted | src/pages/register/index.page.tsx:16 | A backslash passes the pattern alongside letters and hyphens, despite the message |
| UsernameRegex.OtherCharactersRejected | src/pages/register/index.page.tsx:16 | Underscore, space, digit and the empty string are rejected |
| ZodString.Issues | src/pages/register/index.page.tsx:13-18 | No issue exactly when every check passes; each failing check is reported, and nothing else is |
| ZodString.Parse | src/pages/register/index.page.tsx:13-19 | A parse succeeds exactly when every check passes, and yields the lower-cased input when the transform is present. Otherwise it fails with the non-empty list of issues of the failing checks |
| ZodString.MinThenPattern | src/pages/register/index.page.tsx:13-19 | `.min(n).regex(p).transform(lower)` accepts exactly when the length floor and the pattern both hold. Otherwise it reports the length issue, the pattern issue, or both, in that order |
| RegisterPage.ValidateUsername | src/pages/register/index.page.tsx:13-19 | The register username is accepted exactly when it is at least 3 code units long and made only of letters, hyphens and backslashes. It comes back lower-cased, and each failing rule reports its own message |
| RegisterPage.NormalisedUsername | src/pages/register/index.page.tsx:16-19 | An accepted username is returned with the same length and no capitals, and validating that output again returns it unchanged |
| RegisterPage.ValidateName | src/pages/register/index.page.tsx:21-23 | The name is accepted exactly when it is at least 3 code units long, is returned untouched (no trimming, no charset rule), and otherwise fails with the name-length message alone |
| RegisterPage.ParseForm | src/pages/register/index.page.tsx:12-24 | The form parses exactly when both fields are valid, yielding the normalised username and the untouched name. On failure, each field carries exactly its own issues: the name its length message or nothing, and the username its length message, its charset message, both in that order, or nothing |
| RegisterPage.RequestBody | src/pages/register/index.page.tsx:49-52 | A POST is sent exactly when both fields are valid, and its body is the name and the normalised username |
| RegisterPage.Prefill | src/pages/register/index.page.tsx:40-43 | A present non-empty `query.username` is copied into the field verbatim, with no normalisation; otherwise the fields are unchanged, and the name is never touched |
| RegisterPage.HandleRegister | src/pages/register/index.page.tsx:48-64 | A successful POST navigates to `/register/connect-calendar`. An axios error whose `response.data.error` is non-empty alerts that message and does not navigate. Any other error does neither |
| RegisterPage.LowerUsernameExample | src/pages/register/index.page.tsx:13-19 | `joao-silva` is accepted unchanged |
| RegisterPage.CapitalisedUsernameExample | src/pages/register/index.page.tsx:13-19 | `JOAO-SILVA` is accepted as `joao-silva` |
| RegisterPage.ShortUsernameExample | src/pages/register/index.page.tsx:15 | `jo` fails with the length message only |
| RegisterPage.UnderscoreUsernameExample | src/pages/register/index.page.tsx:16-18 | `joao_silva` fails with the charset message only |
| RegisterPage.NameCountsCodeUnits | src/pages/register/index.page.tsx:21-23 | A name of two characters outside the Basic Multilingual Plane is four code units, so it passes the length floor; a two-letter name fails |
| ClaimUsernameForm.ValidateUsername | src/pages/home/components/ClaimUsernameForm/index.tsx:10-18 | The claim username is accepted exactly when it is at least 3 code units of letters, hyphens and backslashes. It comes back lower-cased, and on failure the length and charset issues are reported in that order |
| ClaimUsernameForm.SameRuleAsRegister | src/pages/home/components/ClaimUsernameForm/index.tsx:10-18 | The claim schema and the register schema give the same result on every string |
| ClaimUsernameForm.ClaimNormalisationIdempotent | src/pages/home/components/ClaimUsernameForm/index.tsx:17 | The claim form's normalised username has no capitals and validates to itself |
| ClaimUsernameForm.RedirectPath | src/pages/home/components/ClaimUsernameForm/index.tsx:36 | The pushed path is `/register?username=` followed by the username, unencoded, so the suffix after the prefix is exactly the username |
| ClaimUsernameForm.HandleClaim | src/pages/home/components/ClaimUsernameForm/index.tsx:33-37 | A submit redirects exactly when the username is valid, and the text after `?username=` is the lower-cased input. Otherwise it keeps the non-empty issues |
| ClaimUsernameForm.Annotation | src/pages/home/components/ClaimUsernameForm/index.tsx:57-61 | With no username error the annotation is the hint; otherwise it is the error's message |
| ClaimUsernameForm.AnnotationAfterSubmit | src/pages/home/components/ClaimUsernameForm/index.tsx:57-61 | After a submit, the hint shows exactly when the input was valid. A too-short input of allowed characters shows the length message. A long-enough input with a disallowed character shows the charset message. When both checks fail, one of the two messages shows |
| UsersApi.FindUnique | src/pages/api/users/index.api.ts:15-19 | The lookup finds a user exactly when some stored username equals the given one, character for character, and what it finds is such a stored user |
| UsersApi.Create | src/pages/api/users/index.api.ts:25-32 | Creation appends exactly one user carrying the given name and username. Its id differs from every existing id when the counter is fresh |
| UsersApi.Handle | src/pages/api/users/index.api.ts:5-40 | A non-POST request gets 405, no body, no cookie, and the store is unchanged. A taken username gets 400 with `{error: "Username already exists."}`, no cookie, and the store is unchanged. Otherwise the store gains one user with a fresh id and the given name and username, earlier users stay, and the response is 201 with that user. The cookie is `@ignitecall:userId` with that user's id, maxAge 604800 and path `/`. The store invariant is preserved |
| UsersApi.HandleAll | src/pages/api/users/index.api.ts:5-40 | Requests handled one after another give one response per request, each 201, 400 or 405. Every non-POST request gets exactly 405 with no body, and the store grows by at most one user per request |
| UsersApi.HandleAllKeepsUsernamesDistinct | src/pages/api/users/index.api.ts:15-29 | Under any sequence of calls, a valid store stays valid, so usernames stay pairwise distinct |
| UsersApi.HandleAllOnlyAppends | src/pages/api/users/index.api.ts:25-29 | Under any sequence of calls, every earlier user stays in place; users are only ever added |
| UsersApi.RepeatedPostConflicts | src/pages/api/users/index.api.ts:15-25 | The same POST body twice in a row gives 201, then 400 with the conflict message, no cookie and an unchanged store |
| UsersApi.NoServerSideValidation | src/pages/api/users/index.api.ts:13 | The handler stores a one-character capitalised username as sent: no length, charset or case rule applies on the server |
| UsersApi.LookupIsCaseSensitive | src/pages/api/users/index.api.ts:15-29 | With `maria` stored, a POST for `Maria` is created as a second user |
| RegistrationFlow.AxiosOutcome | src/pages/register/index.page.tsx:55-59 | A 2xx response fulfils the POST. Any other response rejects it with an axios error, which carries `data.error` exactly when the body is an error object |
| RegistrationFlow.SubmitRegister | src/pages/register/index.page.tsx:46-64 | An invalid form sends nothing and changes nothing. A valid form with a fresh normalised username stores the user, navigates onward and sets the cookie. A taken one alerts "Username already exists." and leaves the store unchanged. The store invariant is kept |
| RegistrationFlow.ClaimThenPrefill | src/pages/home/components/ClaimUsernameForm/index.tsx:36 | Assume the query decodes to the text after `?username=`. Then the register page pre-fills the claim form's lower-cased username, which re-validates to itself |
| RegistrationFlow.CaseVariantRefused | src/pages/api/users/index.api.ts:15-23 | After one form registration, a form submit of any capitalisation of the same username gets the conflict alert and leaves the store unchanged |
| RegistrationFlow.StoredLowerCaseBlocksForm | src/pages/api/users/index.api.ts:15-23 | When the store already holds the lower-cased form of a submitted username, however it got there, the form submit gets the conflict alert and leaves the store unchanged |
| RegistrationFlow.FreshRegistrationExample | src/pages/api/users/index.api.ts:25-39 | On an empty store, the form `{username: "Maria-Silva", name: "Maria Silva"}` stores `maria-silva`, navigates to the calendar step, and sets the cookie with the new id |

## Left out

- Rendering, styles and `src/pages/home/index.tsx`: markup with no logic.
- JsText.Utf16Length: it is JavaScript's `length` only on well-formed text. A JavaScript string can hold unpaired surrogates, and a string of Unicode scalar values cannot.
- JsText.ToLower: it lower-cases ASCII only. JavaScript's `toLowerCase` also maps non-ASCII letters, but the transform only runs on accepted usernames, which are all ASCII.
- ClaimUsernameForm.Annotation: it shows the first reported issue. When only one check fails, that check's message is the one shown. When both the length and the charset check fail, which message the form library displays is the library's choice, so `ClaimUsernameForm.AnnotationAfterSubmit` promises only one of the two in that case.
- RegisterPage.Prefill: the query value is modelled as an optional string. Next.js can also hand over an array for a repeated parameter, and that case is not modelled.
- Query-string decoding by the Next.js router is not modelled. `RegistrationFlow.ClaimThenPrefill` takes the decoded text as a hypothesis.
- Transport and logging are not modelled. axios transport, `console.log` and `alert` are reduced to the `PostOutcome` and `ClientAction` values. A network failure without a response is `AxiosRejected(None)`.
- Non-string `data.error` values are not modelled. They would be alerted after conversion to text; the model carries only strings.
- UsersApi.Handle: it assumes a JSON body with string `name` and `username`. A missing or non-string field, or any database failure, would make Prisma throw an unhandled error, and that path is not modelled.
- The database is abstract. Prisma and its collation are reduced to an exact-string lookup over a list. Ids are natural numbers from a counter, whereas the real ids are generated by the database schema, which is not part of this model.
- Requests are modelled one after another. The lookup and the create are not one atomic step in the handler, so two concurrent requests for the same username could both pass the lookup. The model does not establish atomicity.
- Cookie serialisation (`nookies`) is not modelled; the cookie is the record of its name, value, maxAge and path.
