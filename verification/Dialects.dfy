/** The syntax records of the four shipped dialects, and that each meets what the theorems ask of one. */
module Dialects {
  import opened Lexer
  import opened Scanning
  import Quoting

  const ANSI: Syntax :=
    Syntax(['"'], ["--"], false, false, Case.Lower, false, "", "", "", false,
           [Placeholder("?", Nothing, ""), Placeholder(":", Name, "")])

  const POSTGRES: Syntax :=
    Syntax(['"'], ["--"], true, false, Case.Lower, true, "::", "E", "$", true,
           [Placeholder("$", Digits, ""), Placeholder(":", Name, "")])

  const CLICKHOUSE: Syntax :=
    Syntax(['"', '`'], ["--", "#"], false, true, Case.Preserve, false, "::", "", "", false,
           [Placeholder("{", Any, "}")])

  const TRINO: Syntax :=
    Syntax(['"'], ["--"], false, false, Case.Lower, false, "::", "", "", false, [Placeholder("?", Nothing, "")])

  predicate Shipped(y: Syntax) {
    y == ANSI || y == POSTGRES || y == CLICKHOUSE || y == TRINO
  }

  lemma AnsiFits()
    ensures Splittable(ANSI) && Quoting.Quotable(ANSI)
  {
  }

  lemma PostgresFits()
    ensures Splittable(POSTGRES) && Quoting.Quotable(POSTGRES)
  {
  }

  lemma ClickhouseFits()
    ensures Splittable(CLICKHOUSE) && Quoting.Quotable(CLICKHOUSE)
  {
  }

  lemma TrinoFits()
    ensures Splittable(TRINO) && Quoting.Quotable(TRINO)
  {
  }

  /** Every shipped dialect can be cut at its semicolons and reads its own quoted names. */
  lemma ShippedDialectsFit(y: Syntax)
    requires Shipped(y)
    ensures Splittable(y) && Quoting.Quotable(y)
  {
    hide Splittable, Quoting.Quotable;
    AnsiFits();
    PostgresFits();
    ClickhouseFits();
    TrinoFits();
  }
}
