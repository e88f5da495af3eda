/** How the SQLite and SQLAlchemy recipe books relate on the same table of
    users: both refuse a taken name or email. SQLAlchemy always names the
    name first; SQLite names whichever clashing row its lookup returns. */
module Variants {

  import opened Accounts
  import opened Relational
  import SqliteRecetario
  import OrmRecetario

  /** Whatever SQLite's lookup returns, both versions create the user in
      exactly the same states; a name SQLite reports taken is reported by the
      ORM too, and an email the ORM reports taken is reported by SQLite too. */
  lemma RegistrationVariantsAgree(rows: seq<Usuario>, usuario: string, email: string, r: Registration)
    requires SqliteRecetario.MayReport(rows, usuario, email, r)
    ensures r == UserCreated <==> OrmRecetario.Registering(rows, usuario, email) == UserCreated
    ensures r == UsernameTaken ==> OrmRecetario.Registering(rows, usuario, email) == UsernameTaken
    ensures OrmRecetario.Registering(rows, usuario, email) == EmailTaken ==> r == EmailTaken
  {
    SqliteRecetario.ReportIsSound(rows, usuario, email, r);
    if OrmRecetario.Registering(rows, usuario, email) == EmailTaken {
      var u :| u in rows && SqliteRecetario.Clashes(u, usuario, email)
        && r == SqliteRecetario.Classify(u, usuario);
    }
  }

  /** The ORM's answer is one SQLite may give: a plan that looks up the name
      first behaves like the SQLAlchemy version. */
  lemma NameFirstIsOnePlan(rows: seq<Usuario>, usuario: string, email: string)
    ensures SqliteRecetario.MayReport(rows, usuario, email, OrmRecetario.Registering(rows, usuario, email))
  {
    var o := OrmRecetario.Registering(rows, usuario, email);
    if o == UsernameTaken {
      var u :| u in rows && u.usuario == usuario;
      assert SqliteRecetario.Clashes(u, usuario, email) && o == SqliteRecetario.Classify(u, usuario);
    } else if o == EmailTaken {
      var u :| u in rows && u.email == email;
      assert SqliteRecetario.Clashes(u, usuario, email) && o == SqliteRecetario.Classify(u, usuario);
    }
  }

  /** The two may name different culprits: with the email held by one user
      and the name by another, SQLite may report the email where the ORM
      reports the name. */
  lemma RegistrationVariantsMayDiffer(a: Usuario, b: Usuario)
    requires a.usuario != b.usuario
    ensures SqliteRecetario.MayReport([a, b], b.usuario, a.email, EmailTaken)
    ensures OrmRecetario.Registering([a, b], b.usuario, a.email) == UsernameTaken
  {
    SqliteRecetario.EitherClashMayBeReported(a, b);
    assert b in [a, b];
  }
}
