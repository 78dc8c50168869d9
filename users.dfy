/** The user routes: registration (`POST /api/registro`), login
    (`POST /api/login`) and the caller's profile (`GET /api/perfil`). Each is a
    ladder of status decisions over what the request carries and what the
    `usuarios` table answers. The table is modelled as a sequence of rows with
    its unique key on `email`; bcrypt hashing and comparison and JWT signing and
    verification are parameters. */
module Users {
  import opened Js
  import opened Http
  import Auth

  /** The JSON body of a registration request. */
  datatype RegistrationBody = RegistrationBody(
    nombre: Option<string>, email: Option<string>, password: Option<string>,
    telefono: Option<string>, direccion: Option<string>)

  /** The JSON body of a login request. */
  datatype LoginBody = LoginBody(email: Option<string>, password: Option<string>)

  /** A row of `usuarios`; `password` holds the bcrypt hash. */
  datatype UserRow = UserRow(
    id: int, nombre: string, email: string, password: string,
    telefono: Option<string>, direccion: Option<string>)

  /** The `usuarios` table with the next value of its auto-increment id. */
  datatype Store = Store(rows: seq<UserRow>, nextId: int)

  /** What a `try` block threw; the MariaDB driver fills `sqlMessage` for errors
      the server reports, other failures carry none. */
  datatype Thrown = Thrown(sqlMessage: Option<string>)

  /** An answer of a query: its rows, or a thrown error. */
  datatype Lookup = Found(rows: seq<UserRow>) | LookupFailed

  datatype Confirmation = Confirmation(mensaje: string)
  datatype PublicUser = PublicUser(id: int, nombre: string, email: string)
  datatype Session = Session(mensaje: string, token: string, usuario: PublicUser)
  datatype Profile = Profile(
    id: int, nombre: string, email: string, telefono: Option<string>, direccion: Option<string>)

  const MissingFields := "Faltan campos obligatorios"
  const EmailTaken := "El email ya está registrado"
  const RegistrationFailed := "Error al registrar el usuario"
  const Registered := "Usuario registrado correctamente"
  const MissingCredentials := "Email y contraseña requeridos"
  const UnknownUser := "Usuario no encontrado"
  const WrongPassword := "Contraseña incorrecta"
  const ServerError := "Error en el servidor"
  const LoggedIn := "Login exitoso"
  const ProfileFailed := "Error al obtener el perfil"

  // ---------------------------------------------------------------- the table

  /** The rows whose email is `email`, in table order. */
  function WithEmail(rows: seq<UserRow>, email: string): (r: seq<UserRow>)
    ensures forall u | u in r :: u in rows && u.email == email
    ensures forall u | u in rows && u.email == email :: u in r
  {
    if rows == [] then []
    else (if rows[0].email == email then [rows[0]] else []) + WithEmail(rows[1..], email)
  }

  /** The rows whose id is `id`, in table order. */
  function WithId(rows: seq<UserRow>, id: int): (r: seq<UserRow>)
    ensures forall u | u in r :: u in rows && u.id == id
    ensures forall u | u in rows && u.id == id :: u in r
  {
    if rows == [] then []
    else (if rows[0].id == id then [rows[0]] else []) + WithId(rows[1..], id)
  }

  /** The table's invariant: emails are unique (its unique key), ids are unique
      and below the next auto-increment value. */
  ghost predicate Valid(s: Store) {
    (forall i, j | 0 <= i < j < |s.rows| :: s.rows[i].email != s.rows[j].email) &&
    (forall i | 0 <= i < |s.rows| :: s.rows[i].id < s.nextId)
  }

  /** MariaDB's message for a second row with the same unique key. */
  function DuplicateMessage(email: string): string {
    "Duplicate entry" + " '" + email + "' for key 'email'"
  }

  /** The registration insert: refused with a duplicate-entry error when the
      email is already present, otherwise a new row with the next id. */
  function Insert(s: Store, nombre: string, email: string, hashed: string,
                  telefono: Option<string>, direccion: Option<string>): (r: (Option<Thrown>, Store))
    ensures r.0.None? <==> WithEmail(s.rows, email) == []
    ensures r.0.Some? ==> r.1 == s && r.0 == Some(Thrown(Some(DuplicateMessage(email))))
    ensures r.0.None? ==>
              r.1 == Store(s.rows + [UserRow(s.nextId, nombre, email, hashed, telefono, direccion)], s.nextId + 1)
  {
    if WithEmail(s.rows, email) != [] then (Some(Thrown(Some(DuplicateMessage(email)))), s)
    else (None, Store(s.rows + [UserRow(s.nextId, nombre, email, hashed, telefono, direccion)], s.nextId + 1))
  }

  lemma {:induction false} WithEmailAppend(a: seq<UserRow>, b: seq<UserRow>, email: string)
    ensures WithEmail(a + b, email) == WithEmail(a, email) + WithEmail(b, email)
  {
    if a == [] {
      assert a + b == b;
    } else {
      assert (a + b)[1..] == a[1..] + b;
      WithEmailAppend(a[1..], b, email);
    }
  }

  lemma {:induction false} WithIdAppend(a: seq<UserRow>, b: seq<UserRow>, id: int)
    ensures WithId(a + b, id) == WithId(a, id) + WithId(b, id)
  {
    if a == [] {
      assert a + b == b;
    } else {
      assert (a + b)[1..] == a[1..] + b;
      WithIdAppend(a[1..], b, id);
    }
  }

  /** Inserting keeps the table's invariant. */
  lemma InsertKeepsValid(s: Store, nombre: string, email: string, hashed: string,
                         telefono: Option<string>, direccion: Option<string>)
    requires Valid(s)
    ensures Valid(Insert(s, nombre, email, hashed, telefono, direccion).1)
  {
    var r := Insert(s, nombre, email, hashed, telefono, direccion);
    if r.0.None? {
      var rows := r.1.rows;
      forall i, j | 0 <= i < j < |rows|
        ensures rows[i].email != rows[j].email
      {
        if j == |s.rows| {
          assert rows[i] in s.rows;
        }
      }
    }
  }

  /** The duplicate-entry message is recognised as one. */
  lemma DuplicateRecognised(email: string)
    ensures IsDuplicate(Thrown(Some(DuplicateMessage(email))))
  {
    var p1 := "Duplicate entry" + " '";
    var p2 := p1 + email;
    assert "Duplicate entry" <= p1 <= p2 <= DuplicateMessage(email);
  }

  // ------------------------------------------------------------- registration

  /** nombre, email and password are all truthy. */
  predicate Complete(b: RegistrationBody) {
    Truthy(b.nombre) && Truthy(b.email) && Truthy(b.password)
  }

  /** The error's `sqlMessage` is truthy and includes `Duplicate entry`, that is,
      holds it as a contiguous slice somewhere. */
  predicate IsDuplicate(e: Thrown): (r: bool)
    ensures r <==> Truthy(e.sqlMessage) && exists i: nat :: OccursAt(e.sqlMessage.value, "Duplicate entry", i)
  {
    if e.sqlMessage.None? then false
    else
      IncludesAsSlice(e.sqlMessage.value, "Duplicate entry");
      Truthy(e.sqlMessage) && Includes(e.sqlMessage.value, "Duplicate entry")
  }

  /** The registration route's answer, given whether its `try` block (hashing and
      inserting) completed (`None`) or threw. */
  function RegistrationResponse(b: RegistrationBody, outcome: Option<Thrown>): (r: Response<Confirmation>)
    ensures r == Failure(400, MissingFields) <==> !Complete(b)
    ensures r == Failure(400, EmailTaken) <==> Complete(b) && outcome.Some? && IsDuplicate(outcome.value)
    ensures r == Failure(500, RegistrationFailed) <==> Complete(b) && outcome.Some? && !IsDuplicate(outcome.value)
    ensures r == Ok(Confirmation(Registered)) <==> Complete(b) && outcome.None?
  {
    if !Complete(b) then Failure(400, MissingFields)
    else
      match outcome
      case None => Ok(Confirmation(Registered))
      case Some(e) =>
        if IsDuplicate(e) then Failure(400, EmailTaken) else Failure(500, RegistrationFailed)
  }

  /** Registration against the table: hash the password (`None` when bcrypt
      throws), insert, and answer. The table changes only when the answer is 200. */
  function Register(s: Store, b: RegistrationBody, hash: string -> Option<string>): (r: (Response<Confirmation>, Store))
    ensures !Complete(b) ==> r == (Failure(400, MissingFields), s)
    ensures Complete(b) && hash(b.password.value).None? ==> r == (Failure(500, RegistrationFailed), s)
    ensures Complete(b) && hash(b.password.value).Some? && WithEmail(s.rows, b.email.value) != [] ==>
              r == (Failure(400, EmailTaken), s)
    ensures r.0.Ok? <==>
              Complete(b) && hash(b.password.value).Some? && WithEmail(s.rows, b.email.value) == []
    ensures r.0.Ok? ==>
              r.1 == Store(s.rows + [UserRow(s.nextId, b.nombre.value, b.email.value, hash(b.password.value).value,
                                             b.telefono, b.direccion)], s.nextId + 1)
    ensures !r.0.Ok? ==> r.1 == s
  {
    if !Complete(b) then (RegistrationResponse(b, None), s)
    else
      match hash(b.password.value)
      case None => (RegistrationResponse(b, Some(Thrown(None))), s)
      case Some(hashed) =>
        var (outcome, s') := Insert(s, b.nombre.value, b.email.value, hashed, b.telefono, b.direccion);
        DuplicateRecognised(b.email.value);
        (RegistrationResponse(b, outcome), s')
  }

  /** Registration keeps the table's invariant. */
  lemma RegisterKeepsValid(s: Store, b: RegistrationBody, hash: string -> Option<string>)
    requires Valid(s)
    ensures Valid(Register(s, b, hash).1)
  {
    if Complete(b) && hash(b.password.value).Some? {
      InsertKeepsValid(s, b.nombre.value, b.email.value, hash(b.password.value).value, b.telefono, b.direccion);
    }
  }

  // -------------------------------------------------------------------- login

  /** email and password are both truthy. */
  predicate Given(b: LoginBody) {
    Truthy(b.email) && Truthy(b.password)
  }

  /** The login route's answer. `lookup` runs the query by email, `compare` is
      `bcrypt.compare`, `sign` is `jwt.sign` with the secret and a one-hour
      expiry (`None` when it throws). The first row found is the user. */
  function LoginResponse(b: LoginBody, lookup: string -> Lookup, compare: (string, string) -> bool,
                         sign: Auth.Claims -> Option<string>): (r: Response<Session>)
    ensures r == Failure(400, MissingCredentials) <==> !Given(b)
    ensures r == Failure(404, UnknownUser) <==> Given(b) && lookup(b.email.value) == Found([])
    ensures r == Failure(401, WrongPassword) <==>
              Given(b) && lookup(b.email.value).Found? && lookup(b.email.value).rows != [] &&
              !compare(b.password.value, lookup(b.email.value).rows[0].password)
    ensures r.Ok? ==>
              Given(b) && lookup(b.email.value).Found? && lookup(b.email.value).rows != [] &&
              var u := lookup(b.email.value).rows[0];
              compare(b.password.value, u.password) &&
              sign(Auth.Claims(u.id, u.email)) == Some(r.body.token) &&
              r.body == Session(LoggedIn, r.body.token, PublicUser(u.id, u.nombre, u.email))
    ensures Given(b) && lookup(b.email.value).Found? && lookup(b.email.value).rows != [] &&
            compare(b.password.value, lookup(b.email.value).rows[0].password) &&
            sign(Auth.Claims(lookup(b.email.value).rows[0].id, lookup(b.email.value).rows[0].email)).Some? ==>
              r.Ok?
    ensures r == Failure(500, ServerError) <==>
              Given(b) &&
              (lookup(b.email.value).LookupFailed? ||
               (lookup(b.email.value).rows != [] &&
                compare(b.password.value, lookup(b.email.value).rows[0].password) &&
                sign(Auth.Claims(lookup(b.email.value).rows[0].id, lookup(b.email.value).rows[0].email)).None?))
    ensures !r.Ok? && r.Status() != 400 && r.Status() != 404 && r.Status() != 401 ==> r == Failure(500, ServerError)
  {
    if !Given(b) then Failure(400, MissingCredentials)
    else
      match lookup(b.email.value)
      case LookupFailed => Failure(500, ServerError)
      case Found(rows) =>
        if rows == [] then Failure(404, UnknownUser)
        else
          var u := rows[0];
          if !compare(b.password.value, u.password) then Failure(401, WrongPassword)
          else
            match sign(Auth.Claims(u.id, u.email))
            case None => Failure(500, ServerError)
            case Some(token) => Ok(Session(LoggedIn, token, PublicUser(u.id, u.nombre, u.email)))
  }

  /** The login route's lookup of the table by email. */
  function ByEmail(s: Store): string -> Lookup {
    email => Found(WithEmail(s.rows, email))
  }

  /** Login against the table: an unknown email gives 404 and a wrong password
      for a known one gives 401, whatever else the request holds. */
  function Login(s: Store, b: LoginBody, compare: (string, string) -> bool,
                 sign: Auth.Claims -> Option<string>): (r: Response<Session>)
    ensures !Given(b) ==> r == Failure(400, MissingCredentials)
    ensures Given(b) && WithEmail(s.rows, b.email.value) == [] ==> r == Failure(404, UnknownUser)
    ensures Given(b) && WithEmail(s.rows, b.email.value) != [] &&
            !compare(b.password.value, WithEmail(s.rows, b.email.value)[0].password) ==>
              r == Failure(401, WrongPassword)
    ensures r.Ok? ==> Given(b) && exists u | u in s.rows :: u.email == b.email.value && r.body.usuario.id == u.id
  {
    var r := LoginResponse(b, ByEmail(s), compare, sign);
    assert r.Ok? ==> WithEmail(s.rows, b.email.value)[0] in s.rows;
    r
  }

  // ------------------------------------------------------------------ profile

  /** The profile route's answer to its lookup of the table by id: the row's
      public columns, 404 without a row, 500 when the query throws. */
  function ProfileResponse(lookup: Lookup): (r: Response<Profile>)
    ensures r == Failure(500, ProfileFailed) <==> lookup.LookupFailed?
    ensures r == Failure(404, UnknownUser) <==> lookup == Found([])
    ensures r.Ok? <==> lookup.Found? && lookup.rows != []
    ensures r.Ok? ==> r.body.id == lookup.rows[0].id && r.body.nombre == lookup.rows[0].nombre &&
                      r.body.email == lookup.rows[0].email && r.body.telefono == lookup.rows[0].telefono &&
                      r.body.direccion == lookup.rows[0].direccion
  {
    match lookup
    case LookupFailed => Failure(500, ProfileFailed)
    case Found(rows) =>
      if rows == [] then Failure(404, UnknownUser)
      else
        var u := rows[0];
        Ok(Profile(u.id, u.nombre, u.email, u.telefono, u.direccion))
  }

  /** `GET /api/perfil`: the middleware, then the profile of the token's user id. */
  function Perfil(s: Store, header: Option<string>, verify: string -> Option<Auth.Claims>): (r: Response<Profile>)
    ensures !Truthy(Auth.BearerToken(header)) ==> r.Status() == 401
    ensures r.Ok? ==> exists u | u in s.rows :: r.body.id == u.id && r.body.email == u.email
  {
    Auth.Protected(header, verify, (c: Auth.Claims) => ProfileResponse(Found(WithId(s.rows, c.id))))
  }

  // --------------------------------------------------------------- round trip

  /** No row is found by an id above every row's id. */
  lemma {:induction false} IdsBelow(rows: seq<UserRow>, id: int)
    requires forall i | 0 <= i < |rows| :: rows[i].id < id
    ensures WithId(rows, id) == []
  {
    if rows != [] {
      assert forall i | 0 <= i < |rows[1..]| :: rows[1..][i] == rows[i + 1];
      IdsBelow(rows[1..], id);
    }
  }

  /** A row appended with a fresh email and the next id is the only row found
      by that email and by that id. */
  lemma NewRowFound(s: Store, row: UserRow)
    requires Valid(s) && WithEmail(s.rows, row.email) == [] && row.id == s.nextId
    ensures WithEmail(s.rows + [row], row.email) == [row]
    ensures WithId(s.rows + [row], row.id) == [row]
  {
    WithEmailAppend(s.rows, [row], row.email);
    WithIdAppend(s.rows, [row], row.id);
    IdsBelow(s.rows, row.id);
  }

  /** Logging in holds the signed token when the email's only row matches the password. */
  lemma LoginFindsRow(s: Store, b: LoginBody, row: UserRow, compare: (string, string) -> bool,
                      sign: Auth.Claims -> Option<string>, token: string)
    requires Given(b) && WithEmail(s.rows, b.email.value) == [row]
    requires compare(b.password.value, row.password) && sign(Auth.Claims(row.id, row.email)) == Some(token)
    ensures Login(s, b, compare, sign) == Ok(Session(LoggedIn, token, PublicUser(row.id, row.nombre, row.email)))
  {
    assert ByEmail(s)(b.email.value) == Found([row]);
  }

  /** The profile behind a verified bearer token is the token's user's only row. */
  lemma PerfilFindsRow(s: Store, row: UserRow, verify: string -> Option<Auth.Claims>, token: string)
    requires token != "" && ' ' !in token && verify(token) == Some(Auth.Claims(row.id, row.email))
    requires WithId(s.rows, row.id) == [row]
    ensures Perfil(s, Some("Bearer " + token), verify) ==
              Ok(Profile(row.id, row.nombre, row.email, row.telefono, row.direccion))
  {
    var header := "Bearer " + token;
    assert "Bearer" + " " == "Bearer ";
    assert "Bearer" + " " + token + [] == header;
    Auth.BearerTokenOf("Bearer", token, []);
    assert Auth.Authenticate(Some(header), verify) == Ok(Auth.Claims(row.id, row.email));
  }

  /** Registering a new email, then logging in with the same email and password,
      issues the signed token for the new row's id and email; presenting that
      token as a bearer header returns the new row's profile. The parameters'
      requirements say that comparison accepts the hash of the same password,
      that verification decodes what signing produced, and that a JWT holds no
      space. */
  lemma RegisterThenLogin(s: Store, b: RegistrationBody, hash: string -> Option<string>,
                          compare: (string, string) -> bool, sign: Auth.Claims -> Option<string>,
                          verify: string -> Option<Auth.Claims>, token: string)
    requires Valid(s) && Complete(b)
    requires WithEmail(s.rows, b.email.value) == []
    requires hash(b.password.value).Some? && compare(b.password.value, hash(b.password.value).value)
    requires sign(Auth.Claims(s.nextId, b.email.value)) == Some(token)
    requires token != "" && ' ' !in token && verify(token) == Some(Auth.Claims(s.nextId, b.email.value))
    ensures Register(s, b, hash).0 == Ok(Confirmation(Registered))
    ensures Login(Register(s, b, hash).1, LoginBody(b.email, b.password), compare, sign) ==
              Ok(Session(LoggedIn, token, PublicUser(s.nextId, b.nombre.value, b.email.value)))
    ensures Perfil(Register(s, b, hash).1, Some("Bearer " + token), verify) ==
              Ok(Profile(s.nextId, b.nombre.value, b.email.value, b.telefono, b.direccion))
  {
    var row := UserRow(s.nextId, b.nombre.value, b.email.value, hash(b.password.value).value, b.telefono, b.direccion);
    var s' := Register(s, b, hash).1;
    assert s' == Store(s.rows + [row], s.nextId + 1);
    NewRowFound(s, row);
    LoginFindsRow(s', LoginBody(b.email, b.password), row, compare, sign, token);
    PerfilFindsRow(s', row, verify, token);
  }
}
