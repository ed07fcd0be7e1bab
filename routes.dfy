/** The page routes of `app/routes/routes.py`: the session written by login
    and cleared by logout, the session and role guard in front of every page,
    the JSON endpoints for the dashboard and for user creation, and account
    sign-up. Templates are named, never rendered; flash messages are not
    modelled. */
module Routes {
  import opened Common
  import Models
  import Controllers

  /** Where a redirect points. */
  datatype Endpoint = LoginPage | DashboardPage

  /** The JSON bodies these routes send. */
  datatype Body =
    | Message(success: bool, message: string)   // {'success': ..., 'message': ...}
    | Error(error: string)                      // {'error': ...}
    | Done                                      // {'success': True}
    | Dashboard(data: map<string, Controllers.Metric>)

  /** A view's outcome. `NoResponse` is a view that falls off its end and
      returns None, which Flask turns into a server error. */
  datatype Response =
    | Redirect(to: Endpoint)
    | Render(template: string)
    | Json(status: nat, body: Body)
    | NoResponse

  /** A route's outcome and the statement it sent to the database, if any. */
  datatype Handled = Handled(response: Response, issued: Option<Models.SqlCall>)

  type SessionData = map<string, Value>

  /** `session.get(key)`. */
  function Get(s: SessionData, key: string): Value
  {
    if key in s then s[key] else Null
  }

  function Role(s: SessionData): Value
  {
    Get(s, "user_role")
  }

  // ---------------------------------------------------------------------
  // Pages behind the session guard

  datatype Page =
    | DashboardView | PontoEletronico | Tarefas | Relatorios | Analises
    | Usuarios | Auditoria | MeioAmbiente

  function Template(p: Page): string
  {
    match p
    case DashboardView => "index.html"
    case PontoEletronico => "ponto_eletronico.html"
    case Tarefas => "tarefas.html"
    case Relatorios => "relatorios.html"
    case Analises => "analises.html"
    case Usuarios => "usuarios.html"
    case Auditoria => "auditoria.html"
    case MeioAmbiente => "meio_ambiente.html"
  }

  /** The access table, page by page: the roles a logged-in user needs, or
      None when any logged-in user may see the page. */
  function AllowedRoles(p: Page): Option<set<string>>
  {
    match p
    case DashboardView => None
    case PontoEletronico => Some({Controllers.Supervisor, Controllers.Funcionario})
    case Tarefas => Some({Controllers.Supervisor, Controllers.Funcionario})
    case Relatorios => Some({Controllers.Governante, Controllers.Supervisor})
    case Analises => Some({Controllers.Governante, Controllers.Supervisor})
    case Usuarios => Some({Controllers.Governante})
    case Auditoria => Some({Controllers.Governante})
    case MeioAmbiente => Some({Controllers.Governante})
  }

  /** Whether the session's role is one of `roles`. */
  predicate RoleIn(s: SessionData, roles: set<string>)
  {
    exists r :: r in roles && Role(s) == Text(r)
  }

  /** `role in [Text(r) for r in roles]`. */
  predicate Listed(role: Value, roles: seq<string>)
  {
    exists i :: 0 <= i < |roles| && role == Text(roles[i])
  }

  /** The body every guarded view shares: not logged in goes to the login
      page, the wrong role goes to the dashboard. */
  function Guarded(s: SessionData, roles: seq<string>, template: string): (r: Response)
    ensures "user" !in s ==> r == Redirect(LoginPage)
    ensures "user" in s ==> (r == Render(template) <==> RoleIn(s, set x | x in roles)) &&
                            (r != Render(template) ==> r == Redirect(DashboardPage))
  {
    if "user" !in s then Redirect(LoginPage)
    else if !Listed(Role(s), roles) then Redirect(DashboardPage)
    else Render(template)
  }

  /** `/meio-ambiente` as written: it returns for a session without a user and
      falls off its end otherwise. */
  function MeioAmbienteAsWritten(s: SessionData): (r: Response)
    ensures "user" !in s ==> r == Redirect(LoginPage)
  {
    if "user" !in s then Redirect(LoginPage) else NoResponse
  }

  /** Every logged-in visitor of `/meio-ambiente`, whatever the role, gets no
      response at all. */
  lemma MeioAmbienteAnswersNobodyLoggedIn(s: SessionData)
    requires "user" in s
    ensures MeioAmbienteAsWritten(s) == NoResponse
  {
  }

  /** The concrete case: the administrator, the only role the orphaned role
      check would admit, gets no page. */
  lemma AdministratorGetsNoEnvironmentPage()
    ensures MeioAmbienteAsWritten(map["user" := Text("Administrador"),
                                      "user_role" := Text(Controllers.Governante)]) == NoResponse
  {
  }

  /** `/meio-ambiente` corrected: the orphaned role check and render of
      lines 224-227 completed as its body. */
  function MeioAmbienteCorrected(s: SessionData): (r: Response)
    ensures r == Render("meio_ambiente.html") <==> "user" in s && Role(s) == Text(Controllers.Governante)
    ensures r != NoResponse
  {
    Guarded(s, [Controllers.Governante], "meio_ambiente.html")
  }

  /** Each page view as written, with `/meio-ambiente` corrected. A missing
      user always goes to the login page before any role is looked at; a
      logged-in user sees the page exactly when the access table admits the
      role, and is otherwise sent to the dashboard. */
  function ServePage(s: SessionData, p: Page): (r: Response)
    ensures "user" !in s ==> r == Redirect(LoginPage)
    ensures "user" in s ==>
              (r == Render(Template(p)) <==> AllowedRoles(p).None? || RoleIn(s, AllowedRoles(p).value)) &&
              (r != Render(Template(p)) ==> r == Redirect(DashboardPage))
  {
    match p
    case DashboardView => if "user" !in s then Redirect(LoginPage) else Render("index.html")
    case PontoEletronico =>
      Guarded(s, [Controllers.Supervisor, Controllers.Funcionario], "ponto_eletronico.html")
    case Tarefas => Guarded(s, [Controllers.Supervisor, Controllers.Funcionario], "tarefas.html")
    case Relatorios => Guarded(s, [Controllers.Governante, Controllers.Supervisor], "relatorios.html")
    case Analises => Guarded(s, [Controllers.Governante, Controllers.Supervisor], "analises.html")
    case Usuarios => Guarded(s, [Controllers.Governante], "usuarios.html")
    case Auditoria => Guarded(s, [Controllers.Governante], "auditoria.html")
    case MeioAmbiente => MeioAmbienteCorrected(s)
  }

  /** `/`: to the login page without a user, to the dashboard with one. */
  function Home(s: SessionData): (r: Response)
    ensures r == Redirect(if "user" in s then DashboardPage else LoginPage)
  {
    if "user" !in s then Redirect(LoginPage) else Redirect(DashboardPage)
  }

  /** The access table read role by role: GOVERNANTE never reaches the
      timeclock or task pages, FUNCIONARIO never reaches reports, analyses,
      user management or the audit log, and only GOVERNANTE reaches the
      latter two. */
  lemma AccessByRole(s: SessionData)
    requires "user" in s
    ensures Role(s) == Text(Controllers.Governante) ==>
              ServePage(s, PontoEletronico) == Redirect(DashboardPage) &&
              ServePage(s, Tarefas) == Redirect(DashboardPage) &&
              ServePage(s, Usuarios) == Render("usuarios.html") &&
              ServePage(s, Auditoria) == Render("auditoria.html")
    ensures Role(s) == Text(Controllers.Funcionario) ==>
              ServePage(s, PontoEletronico) == Render("ponto_eletronico.html") &&
              ServePage(s, Relatorios) == Redirect(DashboardPage) &&
              ServePage(s, Analises) == Redirect(DashboardPage) &&
              ServePage(s, Usuarios) == Redirect(DashboardPage)
    ensures (ServePage(s, Usuarios) == Render("usuarios.html") ||
             ServePage(s, Auditoria) == Render("auditoria.html")) ==>
              Role(s) == Text(Controllers.Governante)
  {
    if ServePage(s, Usuarios) == Render("usuarios.html") || ServePage(s, Auditoria) == Render("auditoria.html") {
      var r :| r in {Controllers.Governante} && Role(s) == Text(r);
    }
  }

  // ---------------------------------------------------------------------
  // The session: login and logout

  /** Flask's `session` for one client. */
  class Session {
    var data: SessionData

    constructor ()
      ensures data == map[]
    {
      data := map[];
    }

    /** `/login`: a POST with one of the fixed pairs writes the account's
        name, role and e-mail and goes to the dashboard; anything else leaves
        the session alone and shows the form again. The account table is the
        same as the controller's. */
    method Login(post: bool, email: Option<string>, password: Option<string>) returns (r: Response)
      modifies this
      ensures post && Controllers.MatchesAccount(email, password) ==>
                var a := Controllers.FixedAccounts[email.value];
                data == old(data)["user" := Text(a.name)]["user_role" := Text(a.role)]
                                 ["user_email" := Text(email.value)] &&
                r == Redirect(DashboardPage)
      ensures !(post && Controllers.MatchesAccount(email, password)) ==>
                data == old(data) && r == Render("login.html")
      ensures "user_id" in data <==> "user_id" in old(data)
    {
      if post && Controllers.MatchesAccount(email, password) {
        var a := Controllers.FixedAccounts[email.value];
        data := data["user" := Text(a.name)];
        data := data["user_role" := Text(a.role)];
        data := data["user_email" := Text(email.value)];
        return Redirect(DashboardPage);
      }
      return Render("login.html");
    }

    /** `/logout`: the session is emptied, after which the home page and
        every guarded page send the visitor to the login page. */
    method Logout() returns (r: Response)
      modifies this
      ensures data == map[] && r == Redirect(LoginPage)
      ensures Home(data) == Redirect(LoginPage)
      ensures forall p :: ServePage(data, p) == Redirect(LoginPage)
    {
      data := map[];
      return Redirect(LoginPage);
    }
  }

  /** A successful login lets the account's role through exactly the pages
      the access table gives it. */
  lemma LoginGrantsAccountRole(s: SessionData, email: string, p: Page)
    requires email in Controllers.FixedAccounts
    ensures var a := Controllers.FixedAccounts[email];
            var t := s["user" := Text(a.name)]["user_role" := Text(a.role)]["user_email" := Text(email)];
            ServePage(t, p) == Render(Template(p)) <==>
              AllowedRoles(p).None? || a.role in AllowedRoles(p).value
  {
    var a := Controllers.FixedAccounts[email];
    var t := s["user" := Text(a.name)]["user_role" := Text(a.role)]["user_email" := Text(email)];
    assert Role(t) == Text(a.role);
    if AllowedRoles(p).Some? && RoleIn(t, AllowedRoles(p).value) {
      var r :| r in AllowedRoles(p).value && Role(t) == Text(r);
    }
  }

  // ---------------------------------------------------------------------
  // JSON endpoints

  const NotAuthenticatedError := "Não autenticado"
  const ForbiddenMessage := "Acesso não autorizado"

  /** `/api/dashboard-data`: 401 without a user, otherwise the
      role-dependent dashboard (the view repeats the controller's code). */
  method DashboardData(s: SessionData, now: real) returns (r: Response)
    ensures "user" !in s ==> r == Json(401, Error(NotAuthenticatedError))
    ensures "user" in s ==> r.Json? && r.status == 200 && r.body.Dashboard? &&
                            r.body.data.Keys == Controllers.DashboardKeys(Role(s)) &&
                            r.body.data["timestamp"] == Controllers.Clock(now)
    ensures "user" in s && r.body.Dashboard? ==>
              var data := r.body.data;
              data["activeUsers"] == Controllers.Count(42) && data["efficiency"] == Controllers.Count(87) &&
              (Controllers.SeesEnvironment(Role(s)) ==>
                 data["environmentImpact"] == Controllers.Count(76) &&
                 data["criticalAlerts"] == Controllers.Count(3)) &&
              (Role(s) == Text(Controllers.Governante) ==>
                 data["airQuality"] == Controllers.Count(85) && data["waterQuality"] == Controllers.Count(92) &&
                 data["wasteManagement"] == Controllers.Count(78) && data["greenCoverage"] == Controllers.Count(65))
  {
    if "user" !in s {
      return Json(401, Error(NotAuthenticatedError));
    }
    var data := Controllers.ObterDadosDashboard(Role(s), now);
    return Json(200, Dashboard(data));
  }

  /** A JSON request body or a form, as text fields. */
  type Fields = map<string, string>

  /** `data.get(key)` / `request.form.get(key)`. */
  function Field(d: Fields, key: string): Option<string>
  {
    if key in d then Some(d[key]) else None
  }

  /** The five 400 guards of `/usuarios/cadastrar`, in the order written:
      the message of the first that fails, or None. */
  function CadastroFailure(d: Fields): (failure: Option<string>)
    ensures failure.None? <==>
              Filled(Field(d, "nome")) && Filled(Field(d, "email")) && Filled(Field(d, "senha")) &&
              Filled(Field(d, "cargo")) && Filled(Field(d, "departamento")) && Filled(Field(d, "status")) &&
              Field(d, "cargo").value in ["FUNCIONARIO", "SUPERVISOR", "MASTER"] &&
              Field(d, "status").value in ["ATIVO", "INATIVO", "PENDENTE"] &&
              '@' in Field(d, "email").value && '.' in Field(d, "email").value &&
              |Field(d, "senha").value| >= 6
    ensures failure.Some? ==>
              failure.value in {Controllers.MissingFieldsMessage, Controllers.InvalidRoleMessage,
                                Controllers.InvalidStatusMessage, Controllers.InvalidEmailMessage,
                                Controllers.ShortPasswordMessage}
  {
    var nome, email, senha := Field(d, "nome"), Field(d, "email"), Field(d, "senha");
    var cargo, departamento, status := Field(d, "cargo"), Field(d, "departamento"), Field(d, "status");
    if !Filled(nome) || !Filled(email) || !Filled(senha) || !Filled(cargo) ||
       !Filled(departamento) || !Filled(status) then Some(Controllers.MissingFieldsMessage)
    else if cargo.value !in ["FUNCIONARIO", "SUPERVISOR", "MASTER"] then Some(Controllers.InvalidRoleMessage)
    else if status.value !in ["ATIVO", "INATIVO", "PENDENTE"] then Some(Controllers.InvalidStatusMessage)
    else if '@' !in email.value || '.' !in email.value then Some(Controllers.InvalidEmailMessage)
    else if |senha.value| < 6 then Some(Controllers.ShortPasswordMessage)
    else None
  }

  /** The endpoint repeats the controller's validator: its guards report
      what the validator's chain reports, for every body. */
  lemma CadastroFailureIsValidator(d: Fields)
    ensures CadastroFailure(d) ==
            FirstFailure(Controllers.NewUserChecks(Field(d, "nome"), Field(d, "email"), Field(d, "senha"),
                                                   Field(d, "cargo"), Field(d, "departamento"),
                                                   Field(d, "status")))
  {
    var cs := Controllers.NewUserChecks(Field(d, "nome"), Field(d, "email"), Field(d, "senha"),
                                        Field(d, "cargo"), Field(d, "departamento"), Field(d, "status"));
    FirstFailureOfFive(cs[0], cs[1], cs[2], cs[3], cs[4]);
    assert cs == [cs[0], cs[1], cs[2], cs[3], cs[4]];
    CargoListIsCargos(Controllers.Str(Field(d, "cargo")));
    StatusListIsStatuses(Controllers.Str(Field(d, "status")));
  }

  lemma CargoListIsCargos(x: string)
    ensures x in ["FUNCIONARIO", "SUPERVISOR", "MASTER"] <==> x in Controllers.Cargos
  {
  }

  lemma StatusListIsStatuses(x: string)
    ensures x in ["ATIVO", "INATIVO", "PENDENTE"] <==> x in Controllers.Statuses
  {
  }

  /** `/usuarios/cadastrar`: 403 unless the session holds a GOVERNANTE user,
      then the validator's checks, each a 400, and only then `criar_usuario`
      without a face: 200 when the store succeeds, 500 when it raises. */
  function CadastrarUsuario(s: SessionData, d: Fields, store: Models.SqlCall -> Result<()>): (h: Handled)
    ensures !("user" in s && Role(s) == Text(Controllers.Governante)) ==>
              h == Handled(Json(403, Message(false, ForbiddenMessage)), None)
    ensures h.issued.Some? ==>
              CadastroFailure(d).None? &&
              h.issued.value == Models.CriarUsuario(AsValue(Field(d, "nome")), AsValue(Field(d, "email")),
                                                    AsValue(Field(d, "senha")), AsValue(Field(d, "cargo")),
                                                    AsValue(Field(d, "departamento")), Null)
    ensures h.response == Json(200, Message(true, Controllers.CreatedMessage)) <==>
              h.issued.Some? && store(h.issued.value).Ok?
  {
    if "user" !in s || Role(s) != Text(Controllers.Governante) then
      Handled(Json(403, Message(false, ForbiddenMessage)), None)
    else
      match CadastroFailure(d)
      case Some(m) => Handled(Json(400, Message(false, m)), None)
      case None =>
        var call := Models.CriarUsuario(AsValue(Field(d, "nome")), AsValue(Field(d, "email")),
                                        AsValue(Field(d, "senha")), AsValue(Field(d, "cargo")),
                                        AsValue(Field(d, "departamento")), Null);
        match store(call)
        case Ok(_) => Handled(Json(200, Message(true, Controllers.CreatedMessage)), Some(call))
        case Raised(e) => Handled(Json(500, Message(false, Controllers.CreateErrorPrefix + e)), Some(call))
  }

  /** For an administrator the endpoint and the controller's
      `criar_usuario` agree: the same statement is issued in the same cases,
      each validation failure is a 400 carrying the controller's message,
      and the outcome of the store decides between 200 and 500. */
  lemma CadastrarAgreesWithController(s: SessionData, d: Fields, store: Models.SqlCall -> Result<()>)
    requires "user" in s && Role(s) == Text(Controllers.Governante)
    ensures var h := CadastrarUsuario(s, d, store);
            var c := Controllers.CriarUsuario(Field(d, "nome"), Field(d, "email"), Field(d, "senha"),
                                              Field(d, "cargo"), Field(d, "departamento"),
                                              Field(d, "status"), Null, store);
            h.issued == c.issued &&
            (c.issued.None? ==> h.response == Json(400, Message(false, c.reply.message))) &&
            (c.issued.Some? ==> h.response == Json(if c.reply.success then 200 else 500,
                                                   Message(c.reply.success, c.reply.message)))
  {
    CadastroFailureIsValidator(d);
    Controllers.CriarUsuarioIsFirstFailure(Field(d, "nome"), Field(d, "email"), Field(d, "senha"),
                                           Field(d, "cargo"), Field(d, "departamento"),
                                           Field(d, "status"), Null, store);
  }

  const SignUpTemplate := "criarconta.html"

  /** `/criarconta`: a POST with nome, e-mail, senha and departamento creates
      the account, always with cargo FUNCIONARIO and the submitted face, and
      goes to the login page; a missing field or a store error shows the
      form again. */
  function CriarConta(post: bool, f: Fields, store: Models.SqlCall -> Result<()>): (h: Handled)
    ensures h.issued.Some? <==>
              post && Filled(Field(f, "nome")) && Filled(Field(f, "email")) &&
              Filled(Field(f, "senha")) && Filled(Field(f, "departamento"))
    ensures h.issued.Some? ==>
              h.issued.value == Models.CriarUsuario(AsValue(Field(f, "nome")), AsValue(Field(f, "email")),
                                                    AsValue(Field(f, "senha")), Text(Controllers.Funcionario),
                                                    AsValue(Field(f, "departamento")), AsValue(Field(f, "rosto"))) &&
              h.issued.value.params[3] == Text(Controllers.Funcionario)
    ensures h.response == Redirect(LoginPage) <==> h.issued.Some? && store(h.issued.value).Ok?
    ensures h.response != Redirect(LoginPage) ==> h.response == Render(SignUpTemplate)
  {
    if !post then Handled(Render(SignUpTemplate), None)
    else
      var nome, email, senha := Field(f, "nome"), Field(f, "email"), Field(f, "senha");
      var departamento, rosto := Field(f, "departamento"), Field(f, "rosto");
      if !(Filled(nome) && Filled(email) && Filled(senha) && Filled(departamento)) then
        Handled(Render(SignUpTemplate), None)
      else
        var call := Models.CriarUsuario(AsValue(nome), AsValue(email), AsValue(senha),
                                        Text(Controllers.Funcionario), AsValue(departamento), AsValue(rosto));
        match store(call)
        case Ok(_) => Handled(Redirect(LoginPage), Some(call))
        case Raised(_) => Handled(Render(SignUpTemplate), Some(call))
  }

  /** Python's complaint when the body also carries the positional `id`. */
  const DuplicateIdError := "atualizar_usuario() got multiple values for argument 'id'"

  /** `/usuarios/editar/<id>`: no session check at all. The body's pairs
      become the keyword arguments of `atualizar_usuario`; an `id` among
      them clashes with the positional id and raises before any statement.
      Any exception is a 400 carrying its text. */
  function EditarUsuario(id: int, body: seq<(string, Value)>, exec: Models.SqlCall -> Result<()>): (h: Handled)
    ensures (exists i :: 0 <= i < |body| && body[i].0 == "id") <==> h.issued.None?
    ensures h.issued.None? ==> h.response == Json(400, Message(false, DuplicateIdError))
    ensures h.issued.Some? ==> h.issued.value == Models.AtualizarUsuario(Number(id), body) &&
                               (h.response == Json(200, Done) <==> exec(h.issued.value).Ok?)
  {
    if exists i :: 0 <= i < |body| && body[i].0 == "id" then
      Handled(Json(400, Message(false, DuplicateIdError)), None)
    else
      var call := Models.AtualizarUsuario(Number(id), body);
      match exec(call)
      case Ok(_) => Handled(Json(200, Done), Some(call))
      case Raised(e) => Handled(Json(400, Message(false, e)), Some(call))
  }

  /** `/usuarios/excluir/<id>`: no session check at all; deletes the row and
      answers 200, or 400 with the exception's text. */
  function ExcluirUsuario(id: int, exec: Models.SqlCall -> Result<()>): (h: Handled)
    ensures h.issued == Some(Models.DeletarUsuario(Number(id)))
    ensures h.issued.value.params == [Number(id)]
    ensures h.response == Json(200, Done) <==> exec(h.issued.value).Ok?
  {
    var call := Models.DeletarUsuario(Number(id));
    match exec(call)
    case Ok(_) => Handled(Json(200, Done), Some(call))
    case Raised(e) => Handled(Json(400, Message(false, e)), Some(call))
  }
}
