/** The statements `app/models/models.py` hands to the MySQL cursor: the
    column/value order of the inserts, the `UPDATE ... SET` clause of
    `Usuario.atualizar` and its parameter list, and the module-level
    wrappers. A statement is modelled as its text and its parameters; the
    text is written on one line (the source's layout whitespace is not
    kept). Connections, commits and fetching are not part of this model. */
module Models {
  import opened Common
  import Text

  /** `cursor.execute(sql, params)`. */
  datatype SqlCall = SqlCall(sql: string, params: seq<Value>)

  /** The number of `%s` markers the connector substitutes when the
      parameters are a sequence: the non-overlapping occurrences of `%s`,
      found left to right. A `%` has no escape there, and every other `%`
      is left as it is. */
  function Conversions(s: string): nat
  {
    if |s| < 2 then 0
    else if s[0] == '%' && s[1] == 's' then 1 + Conversions(s[2..])
    else Conversions(s[1..])
  }

  /** A string has no marker exactly when `%s` does not occur in it. */
  lemma {:induction false} ConversionsZeroIffNoMarker(s: string)
    ensures Conversions(s) == 0 <==> !Text.IsSubstring("%s", s)
  {
    if |s| >= 2 && s[0] == '%' && s[1] == 's' {
      assert "%s" <= s;
    } else if s != [] {
      assert !("%s" <= s);
      ConversionsZeroIffNoMarker(s[1..]);
    } else {
      assert !("%s" <= s);
    }
  }

  /** `%%` is no escape for the connector: `a%%s` holds one marker. */
  lemma DoublePercentIsNoEscape()
    ensures Conversions("a%%s") == 1
  {
    assert "a%%s"[1..] == "%%s" && "%%s"[1..] == "%s" && "%s"[2..] == "";
  }

  /** Two strings can be counted apart unless the join itself forms a
      marker: the left one ends in `%` and the right one starts with `s`. */
  predicate Separable(a: string, b: string)
  {
    !(|a| > 0 && |b| > 0 && a[|a| - 1] == '%' && b[0] == 's')
  }

  lemma {:induction false} PercentFree(s: string)
    requires '%' !in s
    ensures Conversions(s) == 0
  {
    if |s| >= 2 {
      assert '%' !in s[1..];
      PercentFree(s[1..]);
    }
  }

  /** Counting is additive across a join that forms no marker. */
  lemma {:induction false} ConversionsAppend(a: string, b: string)
    requires Separable(a, b)
    ensures Conversions(a + b) == Conversions(a) + Conversions(b)
  {
    if |a| >= 2 {
      if a[0] == '%' && a[1] == 's' {
        assert (a + b)[2..] == a[2..] + b;
        ConversionsAppend(a[2..], b);
      } else {
        assert (a + b)[1..] == a[1..] + b;
        ConversionsAppend(a[1..], b);
      }
    } else if |a| == 1 {
      if |b| > 0 {
        assert (a + b)[1..] == b;
      }
    } else {
      assert a + b == b;
    }
  }

  /** After a percent-free left part the count is additive. */
  lemma ConversionsAppendPercentFree(a: string, b: string)
    requires '%' !in a
    ensures Conversions(a + b) == Conversions(a) + Conversions(b)
  {
    if |a| > 0 {
      assert a[|a| - 1] in a;
    }
    ConversionsAppend(a, b);
  }

  /** A single `%s` after percent-free text is the statement's one marker. */
  lemma PlaceholderAfter(head: string)
    requires '%' !in head
    ensures Conversions(head + "%s") == 1
  {
    PercentFree(head);
    assert "%s"[2..] == "";
    ConversionsAppendPercentFree(head, "%s");
  }

  /** `', '.join(parts)` of percent-free parts is percent-free. */
  lemma {:induction false} JoinPercentFree(parts: seq<string>)
    requires forall i :: 0 <= i < |parts| ==> '%' !in parts[i]
    ensures '%' !in Text.Join(parts, ", ")
  {
    if |parts| > 1 {
      JoinPercentFree(parts[1..]);
    }
  }

  /** `%s, %s, ..., %s` with n conversions. */
  function Placeholders(n: nat): string
  {
    if n == 0 then "" else if n == 1 then "%s" else "%s, " + Placeholders(n - 1)
  }

  lemma {:induction false} PlaceholdersCount(n: nat)
    ensures Conversions(Placeholders(n)) == n
  {
    if n > 1 {
      PlaceholdersCount(n - 1);
      var rest := Placeholders(n - 1);
      assert Placeholders(n) == "%s" + (", " + rest);
      ConversionsAppendPercentFree(", ", rest);
      assert ("%s" + (", " + rest))[2..] == ", " + rest;
    } else if n == 1 {
      assert Placeholders(1)[2..] == "";
    }
  }

  /** `INSERT INTO table (c1, ..., cn) VALUES (%s, ..., %s)` with the values
      in column order. */
  function Insert(table: string, columns: seq<string>, values: seq<Value>): SqlCall
  {
    SqlCall("INSERT INTO " + table + " (" + Text.Join(columns, ", ") + ") VALUES (" +
            Placeholders(|values|) + ")", values)
  }

  /** An insert over percent-free names carries one `%s` per value. */
  lemma InsertPlaceholders(table: string, columns: seq<string>, values: seq<Value>)
    requires '%' !in table
    requires forall i :: 0 <= i < |columns| ==> '%' !in columns[i]
    ensures Conversions(Insert(table, columns, values).sql) == |values|
  {
    JoinPercentFree(columns);
    var head := "INSERT INTO " + table + " (" + Text.Join(columns, ", ") + ") VALUES (";
    assert '%' !in head;
    var marks := Placeholders(|values|);
    PlaceholdersCount(|values|);
    assert Separable(marks, ")");
    ConversionsAppend(marks, ")");
    assert Conversions(")") == 0;
    PercentFree(head);
    ConversionsAppendPercentFree(head, marks + ")");
    assert Insert(table, columns, values).sql == head + (marks + ")");
  }

  /** The columns `Usuario.criar` fills. */
  datatype Column = Nome | Email | Senha | Cargo | Departamento | Rosto

  function ColumnName(c: Column): (name: string)
    ensures '%' !in name
  {
    match c
    case Nome => "nome"
    case Email => "email"
    case Senha => "senha"
    case Cargo => "cargo"
    case Departamento => "departamento"
    case Rosto => "rosto"
  }

  function Names(cs: seq<Column>): (names: seq<string>)
    ensures |names| == |cs|
    ensures forall i :: 0 <= i < |cs| ==> names[i] == ColumnName(cs[i]) && '%' !in names[i]
  {
    if cs == [] then [] else [ColumnName(cs[0])] + Names(cs[1..])
  }

  /** The six columns in the order the statement names them. */
  const UsuarioColumns: seq<Column> := [Nome, Email, Senha, Cargo, Departamento, Rosto]

  /** A user record, as `Usuario(**row)` builds it. */
  datatype Usuario = Usuario(
    nome: Value, email: Value, senha: Value, cargo: Value,
    departamento: Value, rosto: Value, id: Value)

  /** The field of a record a column holds. */
  function Field(u: Usuario, c: Column): Value
  {
    match c
    case Nome => u.nome
    case Email => u.email
    case Senha => u.senha
    case Cargo => u.cargo
    case Departamento => u.departamento
    case Rosto => u.rosto
  }

  /** `Usuario.criar`: the statement names the six columns, and the i-th
      parameter is the value of the i-th named column, one parameter per
      placeholder. */
  function UsuarioCriar(nome: Value, email: Value, senha: Value, cargo: Value,
                        departamento: Value, rosto: Value): (c: SqlCall)
    ensures c.sql == Insert("usuario", Names(UsuarioColumns), c.params).sql
    ensures |c.params| == |UsuarioColumns| == 6
    ensures forall i :: 0 <= i < 6 ==>
              c.params[i] == Field(Usuario(nome, email, senha, cargo, departamento, rosto, Null), UsuarioColumns[i])
    ensures Conversions(c.sql) == |c.params|
  {
    var params := [nome, email, senha, cargo, departamento, rosto];
    InsertPlaceholders("usuario", Names(UsuarioColumns), params);
    Insert("usuario", Names(UsuarioColumns), params)
  }

  /** `Usuario.buscar_por_email`: the statement it runs (building the
      record from the fetched row is not part of this model). */
  function UsuarioBuscarPorEmail(email: Value): (c: SqlCall)
    ensures c.params == [email] && Conversions(c.sql) == 1
  {
    var head := "SELECT * FROM usuario WHERE email = ";
    PlaceholderAfter(head);
    var sql := head + "%s";
    SqlCall(sql, [email])
  }

  /** `[f"{k}=%s" for k in keys]`. */
  function Assignments(keys: seq<string>): (r: seq<string>)
    ensures |r| == |keys|
    ensures forall i :: 0 <= i < |keys| ==> r[i] == keys[i] + "=%s"
  {
    if keys == [] then [] else [keys[0] + "=%s"] + Assignments(keys[1..])
  }

  /** `', '.join(f"{k}=%s" for k in keys)`. */
  function SetClause(keys: seq<string>): string
  {
    Text.Join(Assignments(keys), ", ")
  }

  /** The keyword names, in order. */
  function KeysOf(kwargs: seq<(string, Value)>): (keys: seq<string>)
    ensures |keys| == |kwargs| && forall i :: 0 <= i < |kwargs| ==> keys[i] == kwargs[i].0
  {
    seq(|kwargs|, i requires 0 <= i < |kwargs| => kwargs[i].0)
  }

  /** `Usuario.atualizar(id, **kwargs)`: the arguments in keyword order. */
  function UsuarioAtualizar(id: Value, kwargs: seq<(string, Value)>): (c: SqlCall)
    ensures |c.params| == |kwargs| + 1
    ensures forall i :: 0 <= i < |kwargs| ==> c.params[i] == kwargs[i].1
    ensures c.params[|kwargs|] == id
  {
    var keys := KeysOf(kwargs);
    var values := seq(|kwargs|, i requires 0 <= i < |kwargs| => kwargs[i].1);
    SqlCall(UpdateSql(keys), values + [id])
  }

  /** `pre + x` for each x of xs. */
  function PrefixEach(pre: string, xs: seq<string>): (r: seq<string>)
    ensures |r| == |xs| && forall i :: 0 <= i < |xs| ==> r[i] == pre + xs[i]
  {
    if xs == [] then [] else [pre + xs[0]] + PrefixEach(pre, xs[1..])
  }

  /** Joining with ", " is joining with "," after a space on each later part. */
  lemma {:induction false} SpaceThenJoin(xs: seq<string>)
    requires |xs| >= 1
    ensures " " + Text.Join(xs, ", ") == Text.Join(PrefixEach(" ", xs), ",")
  {
    if |xs| > 1 {
      SpaceThenJoin(xs[1..]);
      assert PrefixEach(" ", xs)[1..] == PrefixEach(" ", xs[1..]);
      assert " " + Text.Join(xs, ", ") == (" " + xs[0]) + "," + (" " + Text.Join(xs[1..], ", "));
    }
  }

  lemma {:induction false} JoinCommaSpace(xs: seq<string>)
    requires |xs| >= 1
    ensures Text.Join(xs, ", ") == Text.Join([xs[0]] + PrefixEach(" ", xs[1..]), ",")
  {
    if |xs| > 1 {
      var ys := [xs[0]] + PrefixEach(" ", xs[1..]);
      var j := Text.Join(xs[1..], ", ");
      SpaceThenJoin(xs[1..]);
      assert |ys| > 1;
      assert ys[1..] == PrefixEach(" ", xs[1..]);
      assert Text.Join(ys, ",") == ys[0] + "," + Text.Join(ys[1..], ",");
      assert Text.Join(ys, ",") == xs[0] + "," + (" " + j);
      assert Text.Join(xs, ", ") == xs[0] + ", " + j;
      assert xs[0] + ", " + j == xs[0] + "," + (" " + j);
    } else {
      assert [xs[0]] + PrefixEach(" ", xs[1..]) == [xs[0]];
    }
  }

  /** The SET clause splits back at its commas into the assignments
      `k=%s`, one per keyword and in keyword order (each after the first
      preceded by the space of the separator), when no name holds a comma. */
  lemma SetClauseSplitsIntoAssignments(keys: seq<string>)
    requires |keys| >= 1
    requires forall i :: 0 <= i < |keys| ==> ',' !in keys[i]
    ensures Text.SplitOn(SetClause(keys), ',') == [keys[0] + "=%s"] + PrefixEach(" ", Assignments(keys[1..]))
  {
    var xs := Assignments(keys);
    assert xs[1..] == Assignments(keys[1..]);
    JoinCommaSpace(xs);
    var parts := [xs[0]] + PrefixEach(" ", xs[1..]);
    forall i | 0 <= i < |parts|
      ensures ',' !in parts[i]
    {
      if i > 0 {
        assert parts[i] == " " + (keys[i] + "=%s");
      }
    }
    Text.SplitOnJoin(parts, ',');
  }

  /** The text `Usuario.atualizar` executes for the given keyword names. */
  function UpdateSql(keys: seq<string>): string
  {
    "UPDATE usuario SET " + SetClause(keys) + " WHERE id=%s"
  }

  /** The conversions contributed by the names themselves. */
  function NameConversions(keys: seq<string>): nat
  {
    if keys == [] then 0 else Conversions(keys[0]) + NameConversions(keys[1..])
  }

  /** A SET clause holds one `%s` per key, plus whatever markers the names
      carry: every join in it is `=`, `, ` or follows an `s`, so none forms
      a marker of its own. */
  lemma {:induction false} SetClauseConversions(keys: seq<string>)
    ensures Conversions(SetClause(keys)) == |keys| + NameConversions(keys)
  {
    if keys != [] {
      var a := keys[0] + "=%s";
      AssignmentConversions(keys[0]);
      if |keys| == 1 {
        assert SetClause(keys) == a;
      } else {
        SetClauseConversions(keys[1..]);
        assert Assignments(keys)[1..] == Assignments(keys[1..]);
        var rest := SetClause(keys[1..]);
        ConversionsAppendPercentFree(", ", rest);
        PercentFree(", ");
        assert SetClause(keys) == a + (", " + rest);
        ConversionsAppend(a, ", " + rest);
      }
    }
  }

  /** One assignment `k=%s` adds a single conversion to its name's. */
  lemma AssignmentConversions(k: string)
    ensures Conversions(k + "=%s") == Conversions(k) + 1
  {
    ConversionsAppend(k, "=");
    PercentFree("=");
    assert "%s"[2..] == "";
    ConversionsAppend(k + "=", "%s");
    assert k + "=%s" == (k + "=") + "%s";
  }

  /** The statement's conversions: one per key, one for the id, plus those
      inside the names. */
  lemma UpdateSqlConversions(keys: seq<string>)
    ensures Conversions(UpdateSql(keys)) == |keys| + 1 + NameConversions(keys)
  {
    var head, clause, tail := "UPDATE usuario SET ", SetClause(keys), " WHERE id=%s";
    SetClauseConversions(keys);
    UpdateHeadAndClause(head, clause);
    WhereTail(head + clause);
    assert UpdateSql(keys) == head + clause + tail;
  }

  /** The statement head holds no marker and forms none with the clause. */
  lemma UpdateHeadAndClause(head: string, clause: string)
    requires head == "UPDATE usuario SET "
    ensures Conversions(head + clause) == Conversions(clause)
  {
    PercentFree(head);
    ConversionsAppendPercentFree(head, clause);
  }

  /** The WHERE tail adds exactly the id's marker to what precedes it. */
  lemma WhereTail(before: string)
    ensures Conversions(before + " WHERE id=%s") == Conversions(before) + 1
  {
    var tail := " WHERE id=%s";
    PlaceholderAfter(" WHERE id=");
    assert " WHERE id=" + "%s" == tail;
    assert tail[0] == ' ';
    ConversionsAppend(before, tail);
  }

  /** The names add no marker exactly when none of them contains `%s`. */
  lemma {:induction false} NameConversionsZero(keys: seq<string>)
    ensures NameConversions(keys) == 0 <==>
              forall i :: 0 <= i < |keys| ==> !Text.IsSubstring("%s", keys[i])
  {
    if keys != [] {
      ConversionsZeroIffNoMarker(keys[0]);
      NameConversionsZero(keys[1..]);
      assert forall i :: 1 <= i < |keys| ==> keys[i] == keys[1..][i - 1];
    }
  }

  /** `atualizar` passes exactly one parameter per placeholder of its
      statement if and only if no keyword name contains `%s`; otherwise the
      connector finds more markers than parameters. */
  lemma AtualizarPlaceholders(id: Value, kwargs: seq<(string, Value)>)
    ensures Conversions(UsuarioAtualizar(id, kwargs).sql) ==
              |UsuarioAtualizar(id, kwargs).params| + NameConversions(KeysOf(kwargs))
    ensures Conversions(UsuarioAtualizar(id, kwargs).sql) == |UsuarioAtualizar(id, kwargs).params| <==>
              forall i :: 0 <= i < |kwargs| ==> !Text.IsSubstring("%s", kwargs[i].0)
  {
    var keys := KeysOf(kwargs);
    UpdateSqlConversions(keys);
    NameConversionsZero(keys);
  }

  /** With no keyword arguments the SET clause is empty and id is the only
      parameter. */
  lemma AtualizarWithoutKeywords(id: Value)
    ensures UsuarioAtualizar(id, []) == SqlCall("UPDATE usuario SET  WHERE id=%s", [id])
  {
    assert KeysOf([]) == [];
  }

  /** A keyword name holding `%s` (the names come from the request's JSON
      keys) adds a conversion without a parameter, so the statement and its
      parameters no longer agree. */
  lemma PercentKeyMisalignsPlaceholders()
    ensures var c := UsuarioAtualizar(Number(1), [("nome%s", Text("x"))]);
            Conversions(c.sql) == 3 && |c.params| == 2
  {
    var keys := KeysOf([("nome%s", Text("x"))]);
    assert keys == ["nome%s"];
    assert "nome%s" == "nome" + "%s";
    assert "%s"[2..] == "";
    ConversionsAppendPercentFree("nome", "%s");
    PercentFree("nome");
    assert NameConversions(keys) == 1;
    UpdateSqlConversions(keys);
  }

  /** `Usuario.deletar`. */
  function UsuarioDeletar(id: Value): (c: SqlCall)
    ensures c.params == [id] && Conversions(c.sql) == 1
  {
    var head := "DELETE FROM usuario WHERE id=";
    PlaceholderAfter(head);
    var sql := head + "%s";
    SqlCall(sql, [id])
  }

  // The module-level wrappers.

  function CriarUsuario(nome: Value, email: Value, senha: Value, cargo: Value,
                        departamento: Value, rosto: Value): SqlCall
  {
    UsuarioCriar(nome, email, senha, cargo, departamento, rosto)
  }

  function BuscarUsuarioPorEmail(email: Value): SqlCall
  {
    UsuarioBuscarPorEmail(email)
  }

  function AtualizarUsuario(id: Value, kwargs: seq<(string, Value)>): SqlCall
  {
    UsuarioAtualizar(id, kwargs)
  }

  function DeletarUsuario(id: Value): SqlCall
  {
    UsuarioDeletar(id)
  }

  /** The wrappers forward their arguments unchanged: the same statement and
      parameters as the static methods, for every argument. */
  lemma WrappersForward(nome: Value, email: Value, senha: Value, cargo: Value,
                        departamento: Value, rosto: Value, id: Value,
                        kwargs: seq<(string, Value)>)
    ensures CriarUsuario(nome, email, senha, cargo, departamento, rosto).params ==
              [nome, email, senha, cargo, departamento, rosto]
    ensures AtualizarUsuario(id, kwargs).params[|kwargs|] == id
    ensures DeletarUsuario(id).params == [id]
    ensures BuscarUsuarioPorEmail(email).params == [email]
  {
  }
}
