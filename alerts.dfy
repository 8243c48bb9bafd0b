/**
 * The stock alerts of pagina_admin: for every blood group and component,
 * the valid units of all banks are counted, a count under 5 is an alert
 * and a count of 0 marks the danger as critical.  The view names the
 * components by their labels and compares case-insensitively with the
 * stored codes; "Globulos Vermelhos" never equals the code "globulos", so
 * as written the red-cell buckets always count 0.  Both the view as
 * written and the corrected count are modelled; the store uses the
 * corrected one.
 */
module Alerts {
  import opened Models

  const Limite: nat := 5

  /** Below `limite` in a row of the grid: the inner loop over components. */
  function LowInRow<X>(f: (TipoSangue, X) -> nat, t: TipoSangue, xs: seq<X>): nat
    decreases |xs|
  {
    if xs == [] then 0
    else LowInRow(f, t, xs[..|xs| - 1]) + (if f(t, xs[|xs| - 1]) < Limite then 1 else 0)
  }

  /** `num_alertas`: the counts below `limite` over the whole grid, the outer loop over groups. */
  function LowInGrid<X>(f: (TipoSangue, X) -> nat, ts: seq<TipoSangue>, xs: seq<X>): nat
    decreases |ts|
  {
    if ts == [] then 0
    else LowInGrid(f, ts[..|ts| - 1], xs) + LowInRow(f, ts[|ts| - 1], xs)
  }

  /** `perigo_critico`: some count of the grid is 0. */
  predicate EmptyInGrid<X>(f: (TipoSangue, X) -> nat, ts: seq<TipoSangue>, xs: seq<X>) {
    exists i, j :: 0 <= i < |ts| && 0 <= j < |xs| && f(ts[i], xs[j]) == 0
  }

  lemma {:induction false} LowInRowSpec<X>(f: (TipoSangue, X) -> nat, t: TipoSangue, xs: seq<X>)
    ensures LowInRow(f, t, xs) <= |xs|
    ensures LowInRow(f, t, xs) == 0 <==> forall j :: 0 <= j < |xs| ==> f(t, xs[j]) >= Limite
    decreases |xs|
  {
    if xs != [] {
      var n := |xs| - 1;
      LowInRowSpec(f, t, xs[..n]);
      assert forall j :: 0 <= j < n ==> xs[..n][j] == xs[j];
    }
  }

  /**
   * The alert count is at most the number of cells, and it is 0 exactly when
   * every count reaches the limit; a critical cell is always also an alert.
   */
  lemma LowInGridSpec<X>(f: (TipoSangue, X) -> nat, ts: seq<TipoSangue>, xs: seq<X>)
    ensures LowInGrid(f, ts, xs) <= |ts| * |xs|
    ensures LowInGrid(f, ts, xs) == 0 <==>
            forall i, j :: 0 <= i < |ts| && 0 <= j < |xs| ==> f(ts[i], xs[j]) >= Limite
    ensures EmptyInGrid(f, ts, xs) ==> LowInGrid(f, ts, xs) > 0
  {
    LowInGridBound(f, ts, xs);
    LowInGridZero(f, ts, xs);
  }

  lemma {:induction false} LowInGridBound<X>(f: (TipoSangue, X) -> nat, ts: seq<TipoSangue>, xs: seq<X>)
    ensures LowInGrid(f, ts, xs) <= |ts| * |xs|
    decreases |ts|
  {
    if ts != [] {
      var n := |ts| - 1;
      LowInGridBound(f, ts[..n], xs);
      LowInRowSpec(f, ts[n], xs);
      assert |ts| * |xs| == n * |xs| + |xs|;
    }
  }

  lemma {:induction false} LowInGridZero<X>(f: (TipoSangue, X) -> nat, ts: seq<TipoSangue>, xs: seq<X>)
    ensures LowInGrid(f, ts, xs) == 0 <==>
            forall i, j :: 0 <= i < |ts| && 0 <= j < |xs| ==> f(ts[i], xs[j]) >= Limite
    decreases |ts|
  {
    if ts != [] {
      var n := |ts| - 1;
      LowInGridZero(f, ts[..n], xs);
      LowInRowSpec(f, ts[n], xs);
      assert forall i :: 0 <= i < n ==> ts[..n][i] == ts[i];
    }
  }

  /** Valid units of a group and component, over all banks. */
  function StockGlobal(u: seq<Doacao>, t: TipoSangue, c: Componente): nat {
    |set i: nat | i < |u| && u[i].valido && u[i].tipo == t && u[i].componente == c|
  }

  function Corrigida(u: seq<Doacao>): (TipoSangue, Componente) -> nat {
    (t: TipoSangue, c: Componente) => StockGlobal(u, t, c)
  }

  /** The corrected alert count, comparing the stored component itself. */
  function Alertas(u: seq<Doacao>): nat {
    LowInGrid(Corrigida(u), TodosTipos, TodosComponentes)
  }

  predicate Critico(u: seq<Doacao>) {
    EmptyInGrid(Corrigida(u), TodosTipos, TodosComponentes)
  }

  /**
   * Corrected: there are at most 24 alerts, none exactly when every group
   * and component has at least 5 valid units, and a critical bucket always
   * raises an alert.
   */
  lemma AlertasSpec(u: seq<Doacao>)
    ensures Alertas(u) <= 24
    ensures Alertas(u) == 0 <==> forall t, c :: StockGlobal(u, t, c) >= Limite
    ensures Critico(u) ==> Alertas(u) > 0
  {
    ChoicesEnumerated();
    LowInGridSpec(Corrigida(u), TodosTipos, TodosComponentes);
    if forall i, j :: 0 <= i < |TodosTipos| && 0 <= j < |TodosComponentes| ==>
                      Corrigida(u)(TodosTipos[i], TodosComponentes[j]) >= Limite {
      forall t, c ensures StockGlobal(u, t, c) >= Limite {
        assert t in TodosTipos && c in TodosComponentes;
        var i :| 0 <= i < |TodosTipos| && TodosTipos[i] == t;
        var j :| 0 <= j < |TodosComponentes| && TodosComponentes[j] == c;
        assert Corrigida(u)(TodosTipos[i], TodosComponentes[j]) >= Limite;
      }
    }
  }

  /** The labels pagina_admin loops over. */
  const Rotulos: seq<string> := ["Sangue", "Plasma", "Globulos Vermelhos"]

  function LowerChar(c: char): char {
    if 'A' <= c <= 'Z' then (c as int + 32) as char else c
  }

  function Lower(s: string): (r: string)
    ensures |r| == |s|
  {
    seq(|s|, i requires 0 <= i < |s| => LowerChar(s[i]))
  }

  /** The lookup `componente__iexact`. */
  predicate IExact(a: string, b: string) {
    Lower(a) == Lower(b)
  }

  /** As written: valid units of a group whose stored component matches a label case-insensitively. */
  function StockRotulo(u: seq<Doacao>, t: TipoSangue, rotulo: string): nat {
    |set i: nat | i < |u| && u[i].valido && u[i].tipo == t && IExact(ComponenteCodigo(u[i].componente), rotulo)|
  }

  function Escrita(u: seq<Doacao>): (TipoSangue, string) -> nat {
    (t: TipoSangue, r: string) => StockRotulo(u, t, r)
  }

  /** pagina_admin's `num_alertas`, as written. */
  function AlertasEscritas(u: seq<Doacao>): nat {
    LowInGrid(Escrita(u), TodosTipos, Rotulos)
  }

  /** pagina_admin's `perigo_critico`, as written. */
  predicate CriticoEscrito(u: seq<Doacao>) {
    EmptyInGrid(Escrita(u), TodosTipos, Rotulos)
  }

  lemma LabelMatches(c: Componente)
    ensures IExact(ComponenteCodigo(c), "Sangue") <==> c == Sangue
    ensures IExact(ComponenteCodigo(c), "Plasma") <==> c == Plasma
    ensures !IExact(ComponenteCodigo(c), "Globulos Vermelhos")
  {
    assert Lower("Sangue") == "sangue";
    assert Lower("Plasma") == "plasma";
    assert Lower(ComponenteCodigo(c)) == ComponenteCodigo(c);
    assert |Lower("Globulos Vermelhos")| == 18;
    if c == Plasma {
      assert Lower(ComponenteCodigo(c))[0] != Lower("Sangue")[0];
    }
    if c == Sangue {
      assert Lower(ComponenteCodigo(c))[0] != Lower("Plasma")[0];
    }
  }

  /**
   * As written: whatever the stock, the red-cell count of every group is 0,
   * so there are always at least 8 alerts and the danger is always
   * critical.  With at least 5 valid units in every bucket the corrected
   * count shows no alert and no critical bucket, while the view as written
   * still shows exactly 8 alerts.
   */
  lemma AlertasEscritasFinding(u: seq<Doacao>)
    ensures AlertasEscritas(u) >= 8 && CriticoEscrito(u)
    ensures (forall t, c :: StockGlobal(u, t, c) >= Limite) ==>
              Alertas(u) == 0 && !Critico(u) && AlertasEscritas(u) == 8
  {
    var g := Escrita(u);
    forall t ensures LowInRow(g, t, Rotulos) >= 1 {
      RowAsWritten(u, t);
    }
    RedCellsZero(u, TodosTipos[0]);
    assert g(TodosTipos[0], Rotulos[2]) == 0;
    RowsAtLeastOne(g, TodosTipos, Rotulos);
    AlertasSpec(u);
    if forall t, c :: StockGlobal(u, t, c) >= Limite {
      forall t ensures LowInRow(g, t, Rotulos) == 1 {
        RowAsWritten(u, t);
      }
      RowsExactlyOne(g, TodosTipos, Rotulos);
    }
  }

  lemma RedCellsZero(u: seq<Doacao>, t: TipoSangue)
    ensures StockRotulo(u, t, "Globulos Vermelhos") == 0
  {
    forall c ensures !IExact(ComponenteCodigo(c), "Globulos Vermelhos") { LabelMatches(c); }
    assert (set i: nat | i < |u| && u[i].valido && u[i].tipo == t &&
                         IExact(ComponenteCodigo(u[i].componente), "Globulos Vermelhos")) == {};
  }

  /** One group's row as written: the red-cell label always alerts, the other two follow the stock. */
  lemma RowAsWritten(u: seq<Doacao>, t: TipoSangue)
    ensures LowInRow(Escrita(u), t, Rotulos) >= 1
    ensures StockGlobal(u, t, Sangue) >= Limite && StockGlobal(u, t, Plasma) >= Limite ==>
              LowInRow(Escrita(u), t, Rotulos) == 1
  {
    var g := Escrita(u);
    RedCellsZero(u, t);
    SameStock(u, t);
    assert g(t, "Sangue") == StockGlobal(u, t, Sangue);
    assert g(t, "Plasma") == StockGlobal(u, t, Plasma);
    assert g(t, "Globulos Vermelhos") == 0;
    assert Rotulos[..2] == ["Sangue", "Plasma"] && Rotulos[..2][..1] == ["Sangue"] && Rotulos[..2][..1][..0] == [];
    assert LowInRow(g, t, Rotulos[..1]) == if StockGlobal(u, t, Sangue) < Limite then 1 else 0;
    assert LowInRow(g, t, Rotulos[..2]) == LowInRow(g, t, Rotulos[..1]) + if StockGlobal(u, t, Plasma) < Limite then 1 else 0;
    assert LowInRow(g, t, Rotulos) == LowInRow(g, t, Rotulos[..2]) + 1;
  }

  lemma SameStock(u: seq<Doacao>, t: TipoSangue)
    ensures StockRotulo(u, t, "Sangue") == StockGlobal(u, t, Sangue)
    ensures StockRotulo(u, t, "Plasma") == StockGlobal(u, t, Plasma)
  {
    forall c ensures (IExact(ComponenteCodigo(c), "Sangue") <==> c == Sangue) &&
                     (IExact(ComponenteCodigo(c), "Plasma") <==> c == Plasma) { LabelMatches(c); }
    assert (set i: nat | i < |u| && u[i].valido && u[i].tipo == t && IExact(ComponenteCodigo(u[i].componente), "Sangue"))
        == (set i: nat | i < |u| && u[i].valido && u[i].tipo == t && u[i].componente == Sangue);
    assert (set i: nat | i < |u| && u[i].valido && u[i].tipo == t && IExact(ComponenteCodigo(u[i].componente), "Plasma"))
        == (set i: nat | i < |u| && u[i].valido && u[i].tipo == t && u[i].componente == Plasma);
  }

  lemma {:induction false} RowsAtLeastOne<X>(f: (TipoSangue, X) -> nat, ts: seq<TipoSangue>, xs: seq<X>)
    requires forall t :: LowInRow(f, t, xs) >= 1
    ensures LowInGrid(f, ts, xs) >= |ts|
    decreases |ts|
  {
    if ts != [] {
      RowsAtLeastOne(f, ts[..|ts| - 1], xs);
    }
  }

  lemma {:induction false} RowsExactlyOne<X>(f: (TipoSangue, X) -> nat, ts: seq<TipoSangue>, xs: seq<X>)
    requires forall t :: LowInRow(f, t, xs) == 1
    ensures LowInGrid(f, ts, xs) == |ts|
    decreases |ts|
  {
    if ts != [] {
      RowsExactlyOne(f, ts[..|ts| - 1], xs);
    }
  }
}
