# Lost-pet registry server core, in Dafny

A model of the decision logic in `server.js` of a lost-and-found pet registry: an
Express server over MariaDB that also has a Gemini chatbot. The model has three parts.

- **The public pet listing** (`GET /api/mascotas`). The handler starts from
  `SELECT * FROM mascotas WHERE 1=1`. It appends one `AND` clause per truthy query
  filter, in the fixed order tipo, estado, raza, color_principal, ubicacion_ultima,
  and pushes one parameter per clause. `PetListing.BuildListingQuery` is that handler
  as a method of five sequential updates. Its result is tied to a specification
  (`Plan`, `Render`, `Params`). To give the SQL a meaning, the model reads the WHERE
  fragment back into conditions (`ParseQuery`) and binds the parameters positionally
  (`Accepts`). MariaDB's `LIKE` is modelled as a pattern matcher with `%`, `_` and
  `\` (`SqlLike.Matches`).
- **The chatbot reply extractor** (`getGeminiResponse` and `POST /api/chatbot`). The
  SDK's loosely shaped result is a datatype with optional fields. The ordered
  strategies are a first-truthy scan (`FirstHit`):
  - `response.text`, as a string or as the result of calling it;
  - the candidates' `content`, then their `output[].content`;
  - `result.output[0].content`;
  - otherwise the serialised result.

  `GeminiReply.GetGeminiResponse` keeps the source's nested loops with `break`. It is
  proved equal to the functional specification `GeminiReply`.
- **The request gates.** These are:
  - the JWT middleware `authMiddleware`, which takes the bearer token and answers 401 or 400;
  - registration: missing fields give 400, a duplicate entry gives 400, any other failure gives 500;
  - login: 400, then 404, then 401, then 200 with a token;
  - the profile route.

  All are functions over an abstract `usuarios` table, which has a unique key on
  email. bcrypt and JWT are function parameters.

JavaScript values that are strings or missing are `Option<string>`, and JS truthiness
is `Js.Truthy`: a present, non-empty string. The project has seven modules:

| module | what it holds |
|---|---|
| `Js` | truthiness, `includes`, `indexOf`, `split` |
| `Http` | route responses |
| `SqlLike` | the LIKE matcher |
| `PetListing` | the listing query |
| `GeminiReply` | the chatbot |
| `Auth` | the middleware |
| `Users` | registration, login and profile |

Three behaviours of this server worth noting, which the model follows:

- Registration answers only `{ mensaje }`; no created row is returned.
- A wrong password gives 401 and a bad token gives 400.
- The chatbot answers 200 even with the apology.

## Model

| member | source | states |
|---|---|---|
| `PetListing.BuildListingQuery` | server.js:285-310 | The query is `SELECT * FROM mascotas WHERE 1=1` followed by one clause per truthy filter, with one parameter per clause. Its `?` count equals the number of parameters. With no truthy filter it is the bare query with no parameters. It reads back as exactly the planned conditions. For pattern-free values, a row is returned iff it meets every supplied filter. |
| `PetListing.ListingFacts` | server.js:287-310 | Of any query and parameters equal to the planned ones: `?` count equals the parameter count, no filter gives the bare query and no parameters, the text reads back as the planned conditions, and for pattern-free values a row is returned iff it meets every supplied filter. |
| `PetListing.PlanBindings` | server.js:291-310 | Every binding comes from a truthy filter on its column. Every truthy filter contributes its binding. `tipo` and `estado` bind the raw value with `=`; the three others bind `%v%` with `LIKE`. No filter gives no binding. |
| `PetListing.PlanOrder` | server.js:291-310 | The clauses, and so the placeholders and parameters, come in the order tipo, estado, raza, color_principal, ubicacion_ultima. |
| `PetListing.PlaceholderCount` | server.js:291-310 | A fragment of n appended clauses holds exactly n `?` placeholders. |
| `PetListing.ParseListingQuery` | server.js:287-310 | A built query reads back as the bare query plus exactly its conditions, in order (rendering is injective). |
| `PetListing.QueryMeaning` | server.js:287-310 | Under positional binding, for values free of LIKE pattern characters, a row is returned iff it satisfies the conjunction of the supplied filters: equality for tipo and estado, substring containment for the other three. NULL cells fail a supplied filter. |
| `PetListing.SuppliedMeaning` | server.js:291-310 | One filter's clause: vacuous when the filter is falsy, otherwise equality or containment on that column. |
| `PetListing.UnfilteredColumnIrrelevant` | server.js:291-310 | Changing a row's value in a column whose filter is absent or empty never changes whether the query returns it. |
| `PetListing.NoFilterReturnsAll` | server.js:287-288 | With no truthy filter, every row is returned. |
| `PetListing.UnescapedWildcard` | server.js:299-301 | The filter value is not escaped: `raza=_` returns a row whose breed `x` does not contain `_`. |
| `SqlLike.ContainsPattern` | server.js:299-310 | For a value with no `%`, `_` or `\`, the pattern `%v%` matches exactly the strings that contain v. |
| `SqlLike.LiteralPrefix` | server.js:299-310 | For such a value, `v%` matches exactly the strings that start with v. |
| `SqlLike.WildcardPattern` | server.js:299-310 | Without that condition containment fails: `%_%` matches `x`. |
| `GeminiReply.Prompt` | server.js:56-64 | The prompt starts with the system instruction and ends with the user's message. |
| `GeminiReply.FirstHit` | server.js:86-93 | A scan's result, when present, is truthy. |
| `GeminiReply.FirstHitSpec` | server.js:84-124 | The scan finds nothing iff no element has truthy text. Otherwise it returns the text of the first element with truthy text, with no earlier element truthy. |
| `GeminiReply.FirstHitStops` | server.js:88-93 | Once text is found, later elements are never consulted. |
| `GeminiReply.ScanParts` | server.js:88-93 | The `for … break` loop over a content array ends with the first truthy part text. If there is none, the falsy `text` is unchanged. |
| `GeminiReply.ReplyText` | server.js:126-129 | Any reply text the strategies find is truthy. |
| `GeminiReply.GetGeminiResponse` | server.js:54-146 | The imperative extractor, with its nested loops and breaks, returns exactly the functional specification `GeminiReply`. |
| `GeminiReply.AccessorTextWins` | server.js:70-84 | Truthy text from `response.text` (string or function result) is the reply, whatever the candidates and `result.output` hold. |
| `GeminiReply.CandidatesBeforeOutput` | server.js:83-116 | Text found among the candidates is the reply, whatever `result.output` holds. |
| `GeminiReply.ContentBeforeOutput` | server.js:86-109 | Within a candidate, text in `content` wins over anything in its `output`. |
| `GeminiReply.NothingFound` | server.js:68-124 | No strategy finds text iff no place they inspect holds truthy text. |
| `GeminiReply.Fallback` | server.js:126-146 | A failed model call gives the apology. If no text is found, the reply is the serialised result, or the apology when serialisation throws. |
| `GeminiReply.GeminiReply` | server.js:54-146 | The specification of the extractor. When the strategies find text, that text is the reply. When they find none and serialisation succeeds, the serialised result is the reply. The reply is never empty unless the serialiser itself returns an empty string. |
| `GeminiReply.Chatbot` | server.js:150-163 | A falsy `mensaje` gives 400 "Falta el mensaje". A truthy one gives 200 whose body is the extractor's reply to the prompt built from the message: the adapter never surfaces an error. |
| `Js.Split` | server.js:31 | `split` on one character: at least one piece, at least two exactly when the separator occurs, no piece holds the separator, and joining the pieces gives back the string. |
| `Js.IncludesAsSlice` | server.js:185 | `includes` holds exactly when the needle occupies some contiguous slice of the string. |
| `Auth.BearerToken` | server.js:31 | A token is extracted exactly when the header is present and holds a space, and it never holds a space. |
| `Auth.BearerTokenOf` | server.js:31 | A header `scheme token`, optionally followed by a space and more text, yields `token` when neither holds a space. |
| `Auth.BearerTokenShape` | server.js:31 | Any extracted token has no space, and it sits between the header's first and (if any) second space. |
| `Auth.Authenticate` | server.js:30-41 | A missing or empty token gives 401. A token that fails verification gives 400. Otherwise the route runs with exactly the verified claims. |
| `Auth.Protected` | server.js:30-41 | A protected handler runs only on verified claims, and it sees exactly those. |
| `Users.RegistrationResponse` | server.js:165-190 | Missing nombre, email or password gives 400. Otherwise: a thrown error whose `sqlMessage` includes `Duplicate entry` gives 400 "email already registered", any other thrown error gives 500, and completion gives 200. Each is stated as an iff. |
| `Users.IsDuplicate` | server.js:185 | An error is a duplicate entry exactly when its `sqlMessage` is truthy and holds `Duplicate entry` as a slice. |
| `Users.WithEmail` | server.js:202-205 | The lookup by email returns exactly the table's rows with that email. |
| `Users.WithId` | server.js:243-246 | The lookup by id returns exactly the table's rows with that id. |
| `Users.Insert` | server.js:175-187 | The insert is refused with a duplicate-entry error iff the email is already in the table. Otherwise it appends one row with the next id. |
| `Users.DuplicateRecognised` | server.js:185 | The store's duplicate-key message is recognised by the duplicate check. |
| `Users.Register` | server.js:165-190 | Missing fields give 400, and a hashing failure gives 500. A taken email gives 400, whatever the other fields hold. Success happens iff the email is new, and then exactly one row is appended. The table is unchanged on every failure. |
| `Users.InsertKeepsValid` | server.js:176-180 | An insert keeps emails unique and ids below the next id. |
| `Users.RegisterKeepsValid` | server.js:165-190 | Registration keeps that table invariant. |
| `Users.LoginResponse` | server.js:194-237 | Missing email or password gives 400; an empty lookup 404; a password that does not match the first row's hash 401. A 200 happens exactly when the password matches and signing succeeds; the token is then that row's signed id and email, with the row's public projection. A 500 happens exactly when the query throws or signing throws. |
| `Users.Login` | server.js:197-216 | On the table, an unknown email gives 404 and a wrong password for a known one gives 401. A 200 names a row of the table. |
| `Users.ProfileResponse` | server.js:240-257 | A failed query gives 500 and no row gives 404. Otherwise the answer is the row's id, nombre, email, telefono and direccion. |
| `Users.Perfil` | server.js:240-257 | Without a token it gives 401. A 200 is the profile of a row of the table. |
| `Users.IdsBelow` | server.js:176-180 | The profile lookup finds no row for an id above every row's id. |
| `Users.NewRowFound` | server.js:176-180 | After registering, the new row is the only one found by its email and by its id. |
| `Users.LoginFindsRow` | server.js:209-232 | Login with the matching password of an email's row yields the signed token and that row's public projection. |
| `Users.PerfilFindsRow` | server.js:240-253 | A verified `Bearer` token for a row's id returns that row's profile. |
| `Users.RegisterThenLogin` | server.js:165-253 | Registering a new email, then logging in with the same email and password, issues the token for the new id and email. Presenting it as a bearer header returns the new row's profile. This assumes the hash/compare, sign/verify and no-space-in-JWT premises. |

## Left out

- Database I/O. The pool, connections, `query` and `release` are not modelled. The `usuarios` table is an abstract sequence of rows with a unique key on email. The owner listing (`GET /api/mascotas/usuario`) and pet insertion (`POST /api/mascotas`) are only database calls behind the middleware, which `Auth.Protected` covers. Their queries are not modelled.
- A connection that is not released when a query throws is not modelled, because connections are not modelled.
- bcrypt hashing and comparison, and JWT signing and verification, are function parameters. The round-trip lemma states the premises it needs about them; token expiry lives inside `verify`.
- The Gemini network call and SDK construction are not modelled. The model call is a parameter, and only the shape of its result is modelled. `JSON.stringify` is a parameter (`None` when it throws).
- Logging, CORS and body-parsing setup, `app.listen` and the environment variables are not modelled. The unused `paramIndex` variable has no effect and is not modelled.
- The scripts under `scripts/` and `test_server.js` have no logic of the core and are not part of this model.
- SQL collations are not modelled. MariaDB's default collation makes `=` and `LIKE` case-insensitive, and `=` (not `LIKE`) also ignores trailing spaces; the email lookup uses the same `=`. The model compares exactly.
- Columns of `mascotas` that no filter touches (edad_aproximada, descripcion, foto_url, creado_en) are not in `PetListing.Pet`.
- Non-string JSON values are collapsed to `None` in request bodies, query strings, `text` fields and `response.text()` results. A truthy number or object there is not modelled.
- Fields that are not arrays, such as `candidates`, `content` or `output`, are collapsed to `None`. One exception: a truthy non-array `output[0].content` makes the third strategy iterate or throw, and both lead to the same serialisation fallback.
- The chatbot route's 500 branch cannot be reached, because `getGeminiResponse` never rejects. The model does not include it.
- A `bcrypt.compare` that throws, for example on a NULL stored hash, gives 500. It is not modelled, because the stored hash is a string here.
- `Users.Login`: its contract states the 400/404/401 ladder on the table and that a 200 names a table row. The full 200 body is stated by `Users.LoginResponse` and `Users.LoginFindsRow`.
- `Users.Perfil`: its contract states the 401 gate and that a 200 comes from a table row. The exact body is stated by `Users.ProfileResponse` and `Users.PerfilFindsRow`.
