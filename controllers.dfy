/** The business controllers: the user-creation validator, the fixed-credential
    login, the role-dependent dashboard, the audit-log filter, the timeclock
    table and the FaceID entry points. Database calls are parameters that
    either return a value or raise. */
module Controllers {
  import opened Common
  import Text
  import Models

  /** The `{'success': ..., 'message': ...}` dictionary most controllers return. */
  datatype Reply = Reply(success: bool, message: string)

  // ---------------------------------------------------------------------
  // UsuarioController.autenticar

  /** One entry of the hard-coded account table. */
  datatype Account = Account(password: string, role: string, name: string)

  const Governante := "GOVERNANTE"
  const Supervisor := "SUPERVISOR"
  const Funcionario := "FUNCIONARIO"

  /** The three fixed accounts, keyed by e-mail. */
  const FixedAccounts: map<string, Account> := map[
    "admin@gmail.com" := Account("admin123", Governante, "Administrador"),
    "supervisor@gmail.com" := Account("super123", Supervisor, "Supervisor"),
    "funcionario@gmail.com" := Account("func123", Funcionario, "Funcionário")]

  const InvalidCredentialsMessage := "Credenciais inválidas"

  datatype LoginResult = LoggedIn(user: Account) | LoginFailed(message: string)

  /** Whether the submitted pair is one of the fixed accounts. */
  predicate MatchesAccount(email: Option<string>, password: Option<string>)
  {
    email.Some? && email.value in FixedAccounts &&
    password == Some(FixedAccounts[email.value].password)
  }

  /** `autenticar`: the account record for a matching pair, otherwise the
      fixed refusal. */
  function Autenticar(email: Option<string>, password: Option<string>): (r: LoginResult)
    ensures r.LoggedIn? ==> email.Some? && email.value in FixedAccounts &&
                            r.user == FixedAccounts[email.value] &&
                            password == Some(r.user.password)
    ensures r.LoginFailed? ==> r.message == InvalidCredentialsMessage
  {
    if MatchesAccount(email, password) then LoggedIn(FixedAccounts[email.value])
    else LoginFailed(InvalidCredentialsMessage)
  }

  /** The login succeeds for exactly the three fixed e-mail/password pairs. */
  lemma AutenticarExactlyFixedPairs(email: Option<string>, password: Option<string>)
    ensures Autenticar(email, password).LoggedIn? <==>
            (email, password) in {(Some("admin@gmail.com"), Some("admin123")),
                                  (Some("supervisor@gmail.com"), Some("super123")),
                                  (Some("funcionario@gmail.com"), Some("func123"))}
  {
    if email.Some? && email.value in FixedAccounts {
      var e := email.value;
      assert e == "admin@gmail.com" || e == "supervisor@gmail.com" || e == "funcionario@gmail.com";
    }
  }

  // ---------------------------------------------------------------------
  // UsuarioController.criar_usuario

  const MissingFieldsMessage := "Preencha todos os campos obrigatórios."
  const InvalidRoleMessage := "Cargo inválido."
  const InvalidStatusMessage := "Status inválido."
  const InvalidEmailMessage := "Email inválido."
  const ShortPasswordMessage := "A senha deve ter pelo menos 6 caracteres."
  const CreatedMessage := "Usuário cadastrado com sucesso!"
  const CreateErrorPrefix := "Erro ao cadastrar usuário: "

  const Cargos: set<string> := {"FUNCIONARIO", "SUPERVISOR", "MASTER"}
  const Statuses: set<string> := {"ATIVO", "INATIVO", "PENDENTE"}

  /** The text of a field, or "" when it is absent. */
  function Str(f: Option<string>): string
  {
    if f.Some? then f.value else ""
  }

  /** The reference order of the user-creation guards; later guards are only
      reached once every field is filled, so reading an absent field as ""
      there changes nothing. */
  function NewUserChecks(nome: Option<string>, email: Option<string>, senha: Option<string>,
                         cargo: Option<string>, departamento: Option<string>,
                         status: Option<string>): seq<Check<string>>
  {
    [Check(Filled(nome) && Filled(email) && Filled(senha) && Filled(cargo) &&
           Filled(departamento) && Filled(status), MissingFieldsMessage),
     Check(Str(cargo) in Cargos, InvalidRoleMessage),
     Check(Str(status) in Statuses, InvalidStatusMessage),
     Check('@' in Str(email) && '.' in Str(email), InvalidEmailMessage),
     Check(|Str(senha)| >= 6, ShortPasswordMessage)]
  }

  /** What a creation attempt answered, and the INSERT it sent to the store
      (None when the store was never called). */
  datatype Creation = Creation(reply: Reply, issued: Option<Models.SqlCall>)

  /** `criar_usuario`: five early returns, then `Usuario.criar` inside a try.
      `store` runs a statement against the database and may raise. The
      status is validated but never stored. */
  function CriarUsuario(nome: Option<string>, email: Option<string>, senha: Option<string>,
                        cargo: Option<string>, departamento: Option<string>,
                        status: Option<string>, rosto: Value,
                        store: Models.SqlCall -> Result<()>): (r: Creation)
    ensures r.issued.Some? ==>
              r.issued.value == Models.UsuarioCriar(AsValue(nome), AsValue(email), AsValue(senha),
                                                    AsValue(cargo), AsValue(departamento), rosto)
    ensures r.reply.success <==> r.issued.Some? && store(r.issued.value).Ok?
    ensures r.reply.success ==> r.reply.message == CreatedMessage
    ensures r.issued.Some? && !r.reply.success ==>
              r.reply.message == CreateErrorPrefix + store(r.issued.value).error
  {
    if !(Filled(nome) && Filled(email) && Filled(senha) && Filled(cargo) &&
         Filled(departamento) && Filled(status)) then
      Creation(Reply(false, MissingFieldsMessage), None)
    else if cargo.value !in Cargos then Creation(Reply(false, InvalidRoleMessage), None)
    else if status.value !in Statuses then Creation(Reply(false, InvalidStatusMessage), None)
    else if '@' !in email.value || '.' !in email.value then
      Creation(Reply(false, InvalidEmailMessage), None)
    else if |senha.value| < 6 then Creation(Reply(false, ShortPasswordMessage), None)
    else
      var call := Models.UsuarioCriar(AsValue(nome), AsValue(email), AsValue(senha),
                                      AsValue(cargo), AsValue(departamento), rosto);
      match store(call)
      case Ok(_) => Creation(Reply(true, CreatedMessage), Some(call))
      case Raised(e) => Creation(Reply(false, CreateErrorPrefix + e), Some(call))
  }

  /** The store is called exactly when every guard passes, and otherwise the
      reply is the first failing guard's message, in the documented order. */
  lemma CriarUsuarioIsFirstFailure(nome: Option<string>, email: Option<string>, senha: Option<string>,
                                   cargo: Option<string>, departamento: Option<string>,
                                   status: Option<string>, rosto: Value,
                                   store: Models.SqlCall -> Result<()>)
    ensures var r := CriarUsuario(nome, email, senha, cargo, departamento, status, rosto, store);
            var f := FirstFailure(NewUserChecks(nome, email, senha, cargo, departamento, status));
            (r.issued.Some? <==> f.None?) &&
            (f.Some? ==> r.reply == Reply(false, f.value))
  {
    var cs := NewUserChecks(nome, email, senha, cargo, departamento, status);
    FirstFailureOfFive(cs[0], cs[1], cs[2], cs[3], cs[4]);
    assert cs == [cs[0], cs[1], cs[2], cs[3], cs[4]];
  }

  // ---------------------------------------------------------------------
  // DashboardController.obter_dados_dashboard

  /** A dashboard value: a fixed count, or the clock reading. */
  datatype Metric = Count(n: int) | Clock(t: real)

  const BaseKeys: set<string> := {"activeUsers", "efficiency", "timestamp"}
  const EnvironmentKeys: set<string> := {"environmentImpact", "criticalAlerts"}
  const QualityKeys: set<string> := {"airQuality", "waterQuality", "wasteManagement", "greenCoverage"}

  predicate SeesEnvironment(role: Value)
  {
    role == Text(Governante) || role == Text(Supervisor)
  }

  /** The keys a role is shown. */
  function DashboardKeys(role: Value): set<string>
  {
    BaseKeys + (if SeesEnvironment(role) then EnvironmentKeys else {}) +
    (if role == Text(Governante) then QualityKeys else {})
  }

  /** `obter_dados_dashboard`: the base dictionary, then two `update` calls.
      `now` is the value of `time.time()`. */
  method ObterDadosDashboard(role: Value, now: real) returns (data: map<string, Metric>)
    ensures data.Keys == DashboardKeys(role)
    ensures data["activeUsers"] == Count(42) && data["efficiency"] == Count(87) &&
            data["timestamp"] == Clock(now)
    ensures SeesEnvironment(role) ==>
              data["environmentImpact"] == Count(76) && data["criticalAlerts"] == Count(3)
    ensures role == Text(Governante) ==>
              data["airQuality"] == Count(85) && data["waterQuality"] == Count(92) &&
              data["wasteManagement"] == Count(78) && data["greenCoverage"] == Count(65)
  {
    data := map["activeUsers" := Count(42), "efficiency" := Count(87), "timestamp" := Clock(now)];
    if SeesEnvironment(role) {
      data := data + map["environmentImpact" := Count(76), "criticalAlerts" := Count(3)];
    }
    if role == Text(Governante) {
      data := data + map["airQuality" := Count(85), "waterQuality" := Count(92),
                         "wasteManagement" := Count(78), "greenCoverage" := Count(65)];
    }
  }

  /** Every role sees the base keys; only GOVERNANTE and SUPERVISOR see the
      environment keys; only GOVERNANTE sees the four quality keys. */
  lemma DashboardKeysByRole(role: Value)
    ensures BaseKeys <= DashboardKeys(role)
    ensures EnvironmentKeys <= DashboardKeys(role) <==> SeesEnvironment(role)
    ensures QualityKeys <= DashboardKeys(role) <==> role == Text(Governante)
    ensures "environmentImpact" in DashboardKeys(role) <==> SeesEnvironment(role)
    ensures "airQuality" in DashboardKeys(role) <==> role == Text(Governante)
  {
  }

  /** Widening the role widens the dashboard: FUNCIONARIO's keys are within
      SUPERVISOR's, which are within GOVERNANTE's. */
  lemma DashboardKeysNested()
    ensures DashboardKeys(Text(Funcionario)) == BaseKeys
    ensures DashboardKeys(Text(Funcionario)) < DashboardKeys(Text(Supervisor)) < DashboardKeys(Text(Governante))
  {
    assert "environmentImpact" !in BaseKeys;
    assert "airQuality" !in DashboardKeys(Text(Supervisor));
  }

  // ---------------------------------------------------------------------
  // AuditoriaController.listar_registros

  datatype Registro = Registro(dataHora: string, usuario: string, acao: string,
                               ip: string, status: string)

  /** The three hard-coded audit records. */
  const Registros: seq<Registro> := [
    Registro("2025-09-26 14:32", "admin@gmail.com", "Login realizado", "127.0.0.1", "Sucesso"),
    Registro("2025-09-26 13:12", "erick@teste.com", "Tentativa de login", "192.168.0.15", "Falha"),
    Registro("2025-09-25 19:44", "supervisor@empresa.com", "Alteração em Tarefas", "10.0.0.5", "Info")]

  /** `usuario.lower() in r['usuario'].lower()`. */
  predicate MentionsUser(needle: string, r: Registro)
  {
    Text.IsSubstring(Text.Lower(needle), Text.Lower(r.usuario))
  }

  /** The list comprehension over the records, keeping their order. */
  function FilterByUser(needle: string, rs: seq<Registro>): (out: seq<Registro>)
    ensures |out| <= |rs|
    ensures forall r :: r in out <==> r in rs && MentionsUser(needle, r)
  {
    if rs == [] then []
    else (if MentionsUser(needle, rs[0]) then [rs[0]] else []) + FilterByUser(needle, rs[1..])
  }

  /** The filter distributes over concatenation, so it keeps the records'
      relative order. */
  lemma {:induction false} FilterByUserAppend(needle: string, a: seq<Registro>, b: seq<Registro>)
    ensures FilterByUser(needle, a + b) == FilterByUser(needle, a) + FilterByUser(needle, b)
  {
    if a == [] {
      assert a + b == b;
    } else {
      assert (a + b)[1..] == a[1..] + b;
      FilterByUserAppend(needle, a[1..], b);
    }
  }

  /** `listar_registros`: an absent or empty filter returns every record;
      otherwise exactly the records whose user mentions the filter. The date
      filters are accepted and ignored. */
  function ListarRegistros(usuario: Option<string>): (r: seq<Registro>)
    ensures |r| <= |Registros|
    ensures !Filled(usuario) ==> r == Registros
    ensures forall x :: x in r <==> x in Registros && (!Filled(usuario) || MentionsUser(usuario.value, x))
  {
    if Filled(usuario) then FilterByUser(usuario.value, Registros) else Registros
  }

  /** The filter ignores the case of its argument. */
  lemma ListarRegistrosIgnoresCase(s: string)
    ensures ListarRegistros(Some(Text.Lower(s))) == ListarRegistros(Some(s))
  {
    FilterLowered(s, Registros);
  }

  lemma {:induction false} FilterLowered(s: string, rs: seq<Registro>)
    ensures FilterByUser(Text.Lower(s), rs) == FilterByUser(s, rs)
  {
    Text.LowerIdempotent(s);
    if rs != [] {
      FilterLowered(s, rs[1..]);
    }
  }

  // ---------------------------------------------------------------------
  // PontoController.registrar_ponto

  const PontoMissingMessage := "Campos obrigatórios ausentes."
  const PontoDuplicateMessage := "Ponto já registrado para este usuário e data."
  const PontoRegisteredMessage := "Ponto registrado com sucesso."
  const PontoErrorPrefix := "Erro ao registrar ponto: "
  const Registrado := "REGISTRADO"

  /** One row of the `ponto` table as this controller writes it. */
  datatype Ponto = Ponto(usuarioId: Value, data: Value, horaEntrada: Value, status: string)

  /** The `ponto` table, with the duplicate rule as its invariant. */
  class PontoTable {
    var rows: seq<Ponto>

    /** No two rows share a (usuario_id, data) pair. */
    ghost predicate Valid()
      reads this
    {
      forall i, j :: 0 <= i < j < |rows| ==>
        rows[i].usuarioId != rows[j].usuarioId || rows[i].data != rows[j].data
    }

    /** The (usuario_id, data) pairs already stored. */
    function Keys(): set<(Value, Value)>
      reads this
    {
      set p | p in rows :: (p.usuarioId, p.data)
    }

    constructor ()
      ensures rows == [] && Valid()
    {
      rows := [];
    }

    /** `registrar_ponto`: missing fields are rejected before the table is
        touched, a second entry for the same user and date is rejected, and
        otherwise one REGISTRADO row is appended. `outage` is the text of an
        exception the database raises, if it does. */
    method RegistrarPonto(usuarioId: Value, data: Value, horaEntrada: Value,
                          localizacao: Value, outage: Option<string>) returns (reply: Reply)
      requires Valid()
      modifies this
      ensures Valid()
      ensures !(Truthy(usuarioId) && Truthy(data) && Truthy(horaEntrada)) ==>
                reply == Reply(false, PontoMissingMessage) && rows == old(rows)
      ensures Truthy(usuarioId) && Truthy(data) && Truthy(horaEntrada) && outage.Some? ==>
                reply == Reply(false, PontoErrorPrefix + outage.value) && rows == old(rows)
      ensures Truthy(usuarioId) && Truthy(data) && Truthy(horaEntrada) && outage.None? ==>
                (usuarioId, data) in Keys() &&
                if (usuarioId, data) in old(Keys()) then
                  reply == Reply(false, PontoDuplicateMessage) && rows == old(rows)
                else
                  reply == Reply(true, PontoRegisteredMessage) &&
                  rows == old(rows) + [Ponto(usuarioId, data, horaEntrada, Registrado)]
    {
      if !(Truthy(usuarioId) && Truthy(data) && Truthy(horaEntrada)) {
        return Reply(false, PontoMissingMessage);
      }
      if outage.Some? {
        return Reply(false, PontoErrorPrefix + outage.value);
      }
      if (usuarioId, data) in Keys() {
        return Reply(false, PontoDuplicateMessage);
      }
      ghost var before := rows;
      rows := rows + [Ponto(usuarioId, data, horaEntrada, Registrado)];
      assert rows[|before|] in rows;
      assert Keys() == old(Keys()) + {(usuarioId, data)} by {
        forall p | p in rows
          ensures p in before || p == rows[|before|]
        {
          var i :| 0 <= i < |rows| && rows[i] == p;
          if i < |before| { assert before[i] == p; }
        }
        forall p | p in before ensures p in rows {
          var i :| 0 <= i < |before| && before[i] == p;
          assert rows[i] == p;
        }
      }
      return Reply(true, PontoRegisteredMessage);
    }
  }

  // ---------------------------------------------------------------------
  // Guard clauses of TarefaController and PontoController

  const UsuarioIdRequiredMessage := "usuario_id é obrigatório."
  const TarefasErrorPrefix := "Erro ao buscar tarefas: "
  const HistoricoErrorPrefix := "Erro ao buscar histórico: "

  /** A query answer: the fetched rows, or a failure message. */
  datatype Listing<R> = Listed(items: seq<R>) | ListingFailed(message: string)

  /** Running a per-user query behind the `if not usuario_id` guard; `query`
      is the database lookup and may raise. */
  function GuardedListing<R>(usuarioId: Value, query: Value -> Result<seq<R>>,
                             errorPrefix: string): (r: Listing<R>)
    ensures !Truthy(usuarioId) ==> r == ListingFailed(UsuarioIdRequiredMessage)
    ensures Truthy(usuarioId) ==>
              (r.Listed? <==> query(usuarioId).Ok?) &&
              (r.Listed? ==> r.items == query(usuarioId).value) &&
              (r.ListingFailed? ==> r.message == errorPrefix + query(usuarioId).error)
  {
    if !Truthy(usuarioId) then ListingFailed(UsuarioIdRequiredMessage)
    else
      match query(usuarioId)
      case Ok(rows) => Listed(rows)
      case Raised(e) => ListingFailed(errorPrefix + e)
  }

  /** `listar_tarefas_usuario`: a falsy id is refused whatever the database
      holds. */
  function ListarTarefasUsuario<R>(usuarioId: Value, query: Value -> Result<seq<R>>): (r: Listing<R>)
    ensures !Truthy(usuarioId) ==> r == ListingFailed(UsuarioIdRequiredMessage)
    ensures Truthy(usuarioId) ==> (r.Listed? <==> query(usuarioId).Ok?)
  {
    GuardedListing(usuarioId, query, TarefasErrorPrefix)
  }

  /** `listar_historico`: the same guard over the `ponto` query. */
  function ListarHistorico<R>(usuarioId: Value, query: Value -> Result<seq<R>>): (r: Listing<R>)
    ensures !Truthy(usuarioId) ==> r == ListingFailed(UsuarioIdRequiredMessage)
    ensures Truthy(usuarioId) ==> (r.Listed? <==> query(usuarioId).Ok?)
  {
    GuardedListing(usuarioId, query, HistoricoErrorPrefix)
  }

  // ---------------------------------------------------------------------
  // FaceIDController

  const FaceIdRequiredMessage := "user_id e image são obrigatórios"
  const UserNotFoundMessage := "Usuário não encontrado"
  const FaceIdRegisteredMessage := "FaceID cadastrado com sucesso!"
  const ImageRequiredMessage := "Imagem é obrigatória"
  const NobodyEnrolledMessage := "Nenhum usuário com FaceID cadastrado. Use login tradicional."
  const NotRecognisedMessage := "Rosto não reconhecido. Tente novamente ou use login tradicional."
  const ServerErrorPrefix := "Erro no servidor: "

  /** `registrar_faceid`. `userExists` is the user lookup; it runs outside
      the try block, so an exception it raises propagates to the caller
      (a `Raised` result). Nothing is stored. */
  function RegistrarFaceId(userId: Value, image: Value, userExists: Value -> Result<bool>): (r: Result<Reply>)
    ensures !Truthy(userId) || !Truthy(image) ==> r == Ok(Reply(false, FaceIdRequiredMessage))
    ensures r.Ok? && r.value.success <==>
              Truthy(userId) && Truthy(image) && userExists(userId) == Ok(true)
    ensures r.Raised? <==> Truthy(userId) && Truthy(image) && userExists(userId).Raised?
    ensures Truthy(userId) && Truthy(image) && userExists(userId) == Ok(false) ==>
              r == Ok(Reply(false, UserNotFoundMessage))
  {
    if !Truthy(userId) || !Truthy(image) then Ok(Reply(false, FaceIdRequiredMessage))
    else
      match userExists(userId)
      case Raised(e) => Raised(e)
      case Ok(found) =>
        if !found then Ok(Reply(false, UserNotFoundMessage))
        else Ok(Reply(true, FaceIdRegisteredMessage))
  }

  /** `autenticar_faceid`: `enrolled` is the number of users with a stored
      face, or the exception the lookup raised. It never succeeds. */
  function AutenticarFaceId(image: Value, enrolled: Result<nat>): (r: Reply)
    ensures !r.success
    ensures !Truthy(image) ==> r.message == ImageRequiredMessage
    ensures Truthy(image) && enrolled == Ok(0) ==> r.message == NobodyEnrolledMessage
    ensures Truthy(image) && enrolled.Raised? ==> r.message == ServerErrorPrefix + enrolled.error
    ensures Truthy(image) && enrolled.Ok? && enrolled.value > 0 ==> r.message == NotRecognisedMessage
  {
    if !Truthy(image) then Reply(false, ImageRequiredMessage)
    else
      match enrolled
      case Raised(e) => Reply(false, ServerErrorPrefix + e)
      case Ok(n) =>
        if n == 0 then Reply(false, NobodyEnrolledMessage)
        else Reply(false, NotRecognisedMessage)
  }
}
