/**
 * The views that change the store, as methods of one class holding the
 * three tables the core works on: donors, units (donations) and requests.
 * Rows are identified by their position; rows are never deleted.  Each
 * method is proved to leave the store exactly as the value-level functions
 * of Fulfilment, Eligibility, Orders, Forms and Alerts say, and to keep
 * the store's invariant.
 */
module Views {
  import opened Common
  import opened Calendar
  import opened Ordering
  import opened Models
  import opened Fulfilment
  import opened Eligibility
  import opened Orders
  import opened Forms
  import opened Alerts

  /** The failures of a lookup by key: `get_object_or_404` finds no row, or `get` finds several. */
  datatype Falha = NaoEncontrado | Ambiguo

  class Store {
    var dadores: seq<Dador>
    var doacoes: seq<Doacao>
    var pedidos: seq<Pedido>

    /**
     * Every donor's NIF is nine digits and no two donors share one (what
     * DadorForm's `nif` field guards), and every unit belongs to a stored
     * donor and carries that donor's blood group (what the queries reach
     * through `dador__tipo_sangue`).
     */
    ghost predicate Valid()
      reads this
    {
      NifsBemFormados(dadores) && NifsUnicos(dadores) && UnidadesDosDadores(dadores, doacoes)
    }

    constructor ()
      ensures dadores == [] && doacoes == [] && pedidos == []
      ensures Valid()
    {
      dadores := [];
      doacoes := [];
      pedidos := [];
    }

    /** The stock check loop, leaving at the first line its bucket cannot cover. */
    method PodeSatisfazer(linhas: seq<Linha>, banco: nat) returns (pode: bool)
      ensures pode == Feasible(doacoes, linhas, banco)
    {
      pode := true;
      var i := 0;
      while i < |linhas|
        invariant 0 <= i <= |linhas|
        invariant forall k :: 0 <= k < i ==> Stock(doacoes, linhas[k].tipo, linhas[k].componente, banco) >= linhas[k].quantidade
        invariant pode
      {
        var stockAtual := Stock(doacoes, linhas[i].tipo, linhas[i].componente, banco);
        if stockAtual < linhas[i].quantidade {
          pode := false;
          return;
        }
        i := i + 1;
      }
    }

    /** One line's consumption: `d.valido = False` on each selected unit in turn. */
    method ConsumirLinha(l: Linha, banco: nat)
      modifies this
      ensures doacoes == ConsumeLine(old(doacoes), l, banco)
      ensures dadores == old(dadores) && pedidos == old(pedidos)
    {
      ghost var u0 := doacoes;
      var sel := Selection(doacoes, l, banco);
      SelectionInRange(u0, l, banco);
      for i := 0 to |sel|
        invariant |doacoes| == |u0|
        invariant doacoes == Invalidate(u0, Positions(sel[..i]))
        invariant dadores == old(dadores) && pedidos == old(pedidos)
      {
        var d := sel[i].pos;
        InvalidateStep(u0, Positions(sel[..i]), d);
        PositionsSnoc(sel, i);
        doacoes := doacoes[d := doacoes[d].(valido := false)];
      }
      assert sel[..|sel|] == sel;
    }

    /** The consumption loop over all lines of a request. */
    method ConsumirLinhas(ls: seq<Linha>, banco: nat)
      modifies this
      ensures doacoes == ConsumeAll(old(doacoes), ls, banco)
      ensures dadores == old(dadores) && pedidos == old(pedidos)
    {
      for i := 0 to |ls|
        invariant ConsumeAll(doacoes, ls[i..], banco) == ConsumeAll(old(doacoes), ls, banco)
        invariant dadores == old(dadores) && pedidos == old(pedidos)
      {
        assert ls[i..][1..] == ls[i + 1..];
        ConsumirLinha(ls[i], banco);
      }
    }

    /**
     * criar_pedido: the request is stored active with the lines whose
     * quantity is given and positive; it is then concluded, consuming its
     * units, exactly when AttemptAtCreation says so.
     */
    method CriarPedido(hospital: nat, banco: nat, hoje: Date, campos: seq<CampoLinha>) returns (id: nat, estado: Estado)
      requires Valid() && Calendar.Valid(hoje)
      modifies this
      ensures Valid()
      ensures id == |old(pedidos)|
      ensures doacoes == AttemptAtCreation(old(doacoes), LinhasCriadas(campos), banco).0
      ensures estado == AttemptAtCreation(old(doacoes), LinhasCriadas(campos), banco).1
      ensures pedidos == old(pedidos) + [Pedido(hospital, Ordinal(hoje), estado, banco, LinhasCriadas(campos))]
      ensures dadores == old(dadores)
    {
      pedidos := pedidos + [NovoPedido(hospital, Ordinal(hoje), banco, [])];
      id := |pedidos| - 1;
      var linhas := GuardarLinhas(id, campos);
      ghost var guardados := pedidos;
      assert guardados == old(pedidos) + [NovoPedido(hospital, Ordinal(hoje), banco, linhas)];
      var pode := PodeSatisfazer(linhas, banco);
      if pode && linhas != [] {
        ConsumirLinhas(linhas, banco);
        pedidos := pedidos[id := pedidos[id].(estado := Concluido)];
        assert pedidos == old(pedidos) + [Pedido(hospital, Ordinal(hoje), Concluido, banco, linhas)];
        estado := Concluido;
        ConsumeAllEvolves(old(doacoes), linhas, banco);
        EvolvesKeepsDonors(dadores, old(doacoes), doacoes);
      } else {
        estado := Ativo;
      }
    }

    /** The formset loop: each line with a positive quantity is saved on the request `id`, in order. */
    method GuardarLinhas(id: nat, campos: seq<CampoLinha>) returns (linhas: seq<Linha>)
      requires id < |pedidos| && pedidos[id].itens == []
      modifies this
      ensures linhas == LinhasCriadas(campos)
      ensures pedidos == old(pedidos)[id := old(pedidos)[id].(itens := linhas)]
      ensures doacoes == old(doacoes) && dadores == old(dadores)
    {
      linhas := [];
      for i := 0 to |campos|
        invariant linhas == LinhasCriadas(campos[..i])
        invariant pedidos == old(pedidos)[id := old(pedidos)[id].(itens := linhas)]
        invariant doacoes == old(doacoes) && dadores == old(dadores)
      {
        assert campos[..i + 1][..i] == campos[..i];
        if Guardada(campos[i]) {
          linhas := linhas + [ComoLinha(campos[i])];
          pedidos := pedidos[id := pedidos[id].(itens := linhas)];
        }
      }
      assert campos[..|campos|] == campos;
    }

    /**
     * registar_doacao: the form's NIF lookup decides; on success a valid
     * unit of the donor's group is stored in the donor's bank, the donor
     * becomes not apt with today as latest donation, and the bank's active
     * requests are attempted oldest first (Retrigger).
     */
    method RegistarDoacao(nif: string, componente: Componente, hoje: Date) returns (r: Result<nat, Motivo>)
      requires Valid() && Calendar.Valid(hoje)
      modifies this
      ensures Valid()
      ensures r == ValidarNifDador(nif, old(dadores))
      ensures r != Err(NifAmbiguo)
      ensures r.Err? ==> dadores == old(dadores) && doacoes == old(doacoes) && pedidos == old(pedidos)
      ensures r.Ok? ==>
        var d := old(dadores)[r.value];
        var u1 := old(doacoes) + [NovaDoacao(Ordinal(hoje), componente, r.value, d)];
        && (forall k :: k in ActiveQueue(old(pedidos), d.banco) ==> k.pos < |old(pedidos)|)
        && (doacoes, pedidos) == Retrigger(u1, old(pedidos), ActiveQueue(old(pedidos), d.banco))
        && dadores == old(dadores)[r.value := AposDoacao(d, Ordinal(hoje))]
    {
      r := ValidarNifDador(nif, dadores);
      assert ProcurarNif(dadores, nif) != Varios;
      if r.Err? {
        return;
      }
      var idx := r.value;
      var dador := dadores[idx];
      doacoes := doacoes + [NovaDoacao(Ordinal(hoje), componente, idx, dador)];
      dadores := dadores[idx := AposDoacao(dador, Ordinal(hoje))];
      ghost var u1 := doacoes;
      ProcessarFila(dador.banco);
      DonationPassSpec(u1, old(pedidos), dador.banco);
      EvolvesKeepsDonors(dadores, u1, doacoes);
    }

    /** The loop over the bank's active requests, oldest first, each attempted as the stock then stands. */
    method ProcessarFila(banco: nat)
      modifies this
      ensures forall k :: k in ActiveQueue(old(pedidos), banco) ==> k.pos < |old(pedidos)|
      ensures (doacoes, pedidos) == Retrigger(old(doacoes), old(pedidos), ActiveQueue(old(pedidos), banco))
      ensures dadores == old(dadores)
    {
      var queue := ActiveQueue(pedidos, banco);
      ActiveQueueFacts(pedidos, banco);
      for i := 0 to |queue|
        invariant |pedidos| == |old(pedidos)|
        invariant Retrigger(doacoes, pedidos, queue[i..]) == Retrigger(old(doacoes), old(pedidos), queue)
        invariant dadores == old(dadores)
      {
        var j := queue[i].pos;
        RetriggerUnfold(doacoes, pedidos, queue, i);
        var p := pedidos[j];
        var pode := PodeSatisfazer(p.itens, p.banco);
        if pode {
          ConsumirLinhas(p.itens, p.banco);
          pedidos := pedidos[j := pedidos[j].(estado := Concluido)];
        }
      }
    }

    /** cancelar_pedido: a missing request is not found; otherwise Cancelar decides the new state and the message. */
    method CancelarPedido(id: nat, logado: Option<nat>) returns (r: Result<Cancelamento, Falha>)
      requires Valid()
      modifies this
      ensures Valid()
      ensures r == Err(NaoEncontrado) <==> id >= |old(pedidos)|
      ensures r.Err? ==> pedidos == old(pedidos)
      ensures r.Ok? ==> var (e, m) := Cancelar(old(pedidos)[id], logado);
        r.value == m && pedidos == old(pedidos)[id := old(pedidos)[id].(estado := e)]
      ensures dadores == old(dadores) && doacoes == old(doacoes)
    {
      if id >= |pedidos| {
        return Err(NaoEncontrado);
      }
      var (e, m) := Cancelar(pedidos[id], logado);
      pedidos := pedidos[id := pedidos[id].(estado := e)];
      r := Ok(m);
    }

    /** rejeitar_pedido: a missing request is not found; otherwise it becomes rejected. */
    method RejeitarPedido(id: nat) returns (r: Result<(), Falha>)
      requires Valid()
      modifies this
      ensures Valid()
      ensures r.Err? <==> id >= |old(pedidos)|
      ensures r.Err? ==> pedidos == old(pedidos)
      ensures r.Ok? ==> pedidos == old(pedidos)[id := Rejeitar(old(pedidos)[id])]
      ensures dadores == old(dadores) && doacoes == old(doacoes)
    {
      if id >= |pedidos| {
        return Err(NaoEncontrado);
      }
      pedidos := pedidos[id := Rejeitar(pedidos[id])];
      r := Ok(());
    }

    /**
     * ativar_dador (the POST): the donor with the NIF is looked up, then
     * Ativar decides; only an activation sets `ativo`.
     */
    method AtivarDador(nif: string, hoje: Date) returns (r: Result<Ativacao, Falha>)
      requires Valid() && Calendar.Valid(hoje)
      modifies this
      ensures Valid()
      ensures r == Err(NaoEncontrado) <==> ProcurarNif(old(dadores), nif) == Nenhum
      ensures r == Err(Ambiguo) <==> ProcurarNif(old(dadores), nif) == Varios
      ensures r != Err(Ambiguo)
      ensures r.Ok? ==>
        var p := ProcurarNif(old(dadores), nif).pos;
        && ProcurarNif(old(dadores), nif).Unico?
        && r.value == Ativar(old(dadores)[p], UltimaData(doacoes, p), hoje)
        && dadores == if r.value == Ativado then old(dadores)[p := old(dadores)[p].(ativo := true)] else old(dadores)
      ensures r.Err? ==> dadores == old(dadores)
      ensures doacoes == old(doacoes) && pedidos == old(pedidos)
    {
      assert ProcurarNif(dadores, nif) != Varios;
      match ProcurarNif(dadores, nif)
      case Nenhum => r := Err(NaoEncontrado);
      case Unico(p) =>
        var a := Ativar(dadores[p], UltimaData(doacoes, p), hoje);
        if a == Ativado {
          dadores := dadores[p := dadores[p].(ativo := true)];
        }
        r := Ok(a);
    }

    /**
     * historico_dador's countdown: 0 when no donor has the NIF, otherwise
     * the days the found donor must still wait, counted from the latest
     * donation.
     */
    method HistoricoDador(nif: string, hoje: Date) returns (r: Result<nat, Falha>, dias: nat)
      requires Calendar.Valid(hoje)
      ensures r == Err(NaoEncontrado) <==> forall i :: 0 <= i < |dadores| ==> dadores[i].nif != nif
      ensures r == Err(Ambiguo) <==> ProcurarNif(dadores, nif) == Varios
      ensures r.Ok? ==> r.value < |dadores| && dadores[r.value].nif == nif &&
                        dias == DiasRestantes(dadores[r.value].genero, UltimaData(doacoes, r.value), Ordinal(hoje))
      ensures r.Err? ==> dias == 0
    {
      dias := 0;
      match ProcurarNif(dadores, nif)
      case Nenhum => r := Err(NaoEncontrado);
      case Varios => r := Err(Ambiguo);
      case Unico(p) =>
        r := Ok(p);
        dias := DiasRestantes(dadores[p].genero, UltimaData(doacoes, p), Ordinal(hoje));
    }

    /**
     * registar_dador: a DadorForm without instance checks its `nif` field
     * (required, at most 12 characters, then clean_nif) and runs clean; the
     * donor is stored, apt and without donations, exactly when neither adds
     * an error.
     */
    method RegistarDador(nif: string, nasc: Date, genero: string, peso: real, tipo: TipoSangue, banco: nat, hoje: Date)
      returns (r: Result<nat, seq<ErroForm>>)
      requires Valid()
      modifies this
      ensures Valid()
      ensures var erros := (if ValidarNif(nif, None, old(dadores)).Err? then [ErroForm(CampoNif, ValidarNif(nif, None, old(dadores)).error)] else [])
                           + ClinicalErrors(Some(nasc), Some(peso), false, hoje);
        && (r.Ok? <==> erros == [])
        && (r.Err? ==> r.error == erros && dadores == old(dadores))
        && (r.Ok? ==> r.value == |old(dadores)| && dadores == old(dadores) + [NovoDador(nif, nasc, genero, peso, tipo, banco)])
      ensures doacoes == old(doacoes) && pedidos == old(pedidos)
    {
      var form := new DadorForm(None);
      var nifLimpo := ValidarNif(nif, None, dadores);
      RegistoNif(nif, dadores);
      if nifLimpo.Err? {
        form.AddError(ErroForm(CampoNif, nifLimpo.error));
      }
      form.Clean(Some(nasc), Some(peso), hoje);
      if form.errors == [] {
        dadores := dadores + [NovoDador(nif, nasc, genero, peso, tipo, banco)];
        r := Ok(|dadores| - 1);
      } else {
        r := Err(form.errors);
      }
    }

    /** pagina_admin's alert loop, over groups and then components, with the component compared itself. */
    method PaginaAdminAlertas() returns (alertas: nat, critico: bool)
      ensures alertas == Alertas(doacoes) && critico == Critico(doacoes)
    {
      alertas := 0;
      critico := false;
      ghost var f := Corrigida(doacoes);
      for i := 0 to |TodosTipos|
        invariant alertas == LowInGrid(f, TodosTipos[..i], TodosComponentes)
        invariant critico == EmptyInGrid(f, TodosTipos[..i], TodosComponentes)
      {
        assert TodosTipos[..i + 1][..i] == TodosTipos[..i];
        var n, zero := AlertasDoTipo(TodosTipos[i]);
        alertas := alertas + n;
        critico := critico || zero;
        GridSnoc(f, TodosTipos, i, TodosComponentes);
      }
      assert TodosTipos[..|TodosTipos|] == TodosTipos;
    }

    /** The inner loop of pagina_admin for one group: its alerts, and whether one of its counts is 0. */
    method AlertasDoTipo(t: TipoSangue) returns (n: nat, zero: bool)
      ensures n == LowInRow(Corrigida(doacoes), t, TodosComponentes)
      ensures zero == exists k :: 0 <= k < |TodosComponentes| && StockGlobal(doacoes, t, TodosComponentes[k]) == 0
    {
      n := 0;
      zero := false;
      for j := 0 to |TodosComponentes|
        invariant n == LowInRow(Corrigida(doacoes), t, TodosComponentes[..j])
        invariant zero == exists k :: 0 <= k < j && StockGlobal(doacoes, t, TodosComponentes[k]) == 0
      {
        assert TodosComponentes[..j + 1][..j] == TodosComponentes[..j];
        var total := StockGlobal(doacoes, t, TodosComponentes[j]);
        if total < Limite {
          n := n + 1;
          if total == 0 {
            zero := true;
          }
        }
      }
      assert TodosComponentes[..|TodosComponentes|] == TodosComponentes;
    }
  }

  /** Every donor's NIF is nine digits. */
  ghost predicate NifsBemFormados(ds: seq<Dador>) {
    forall i :: 0 <= i < |ds| ==> NifBemFormado(ds[i].nif)
  }

  /** Every unit belongs to a stored donor and carries that donor's blood group. */
  ghost predicate UnidadesDosDadores(ds: seq<Dador>, us: seq<Doacao>) {
    forall i :: 0 <= i < |us| ==> us[i].dador < |ds| && us[i].tipo == ds[us[i].dador].tipo
  }

  /** Consuming units keeps them attached to their donors. */
  lemma EvolvesKeepsDonors(ds: seq<Dador>, u: seq<Doacao>, u': seq<Doacao>)
    requires UnidadesDosDadores(ds, u) && Evolves(u, u')
    ensures UnidadesDosDadores(ds, u')
  {
    assert forall i :: 0 <= i < |u| ==> u'[i].dador == u[i].dador && u'[i].tipo == u[i].tipo;
  }

  lemma ConsumeAllEvolves(u: seq<Doacao>, ls: seq<Linha>, banco: nat)
    ensures Evolves(u, ConsumeAll(u, ls, banco))
  {
    ConsumeAllSpec(u, ls, banco);
  }

  /** One step of the donation pass, unfolded. */
  lemma RetriggerUnfold(u: seq<Doacao>, ps: seq<Pedido>, queue: seq<Key>, i: nat)
    requires i < |queue| && forall k :: k in queue ==> k.pos < |ps|
    ensures forall k :: k in queue[i..] ==> k.pos < |ps|
    ensures forall k :: k in queue[i + 1..] ==> k.pos < |ps|
    ensures var j := queue[i].pos;
      var (u1, e) := AttemptAfterDonation(u, ps[j]);
      Retrigger(u, ps, queue[i..]) == Retrigger(u1, ps[j := ps[j].(estado := e)], queue[i + 1..])
    ensures var j := queue[i].pos;
      !Feasible(u, ps[j].itens, ps[j].banco) ==> ps[j := ps[j].(estado := ps[j].estado)] == ps
  {
    assert queue[i..][0] == queue[i] && queue[i..][1..] == queue[i + 1..];
    assert forall k :: k in queue[i..] ==> k in queue;
  }

  lemma InvalidateStep(u: seq<Doacao>, rows: set<nat>, d: nat)
    requires d < |u|
    ensures Invalidate(u, rows + {d}) == Invalidate(u, rows)[d := Invalidate(u, rows)[d].(valido := false)]
  {
  }

  lemma SelectionInRange(u: seq<Doacao>, l: Linha, banco: nat)
    ensures forall k :: 0 <= k < |Selection(u, l, banco)| ==> Selection(u, l, banco)[k].pos < |u|
  {
    QueryFacts(u, l.tipo, l.componente, banco);
    var q := Query(u, l.tipo, l.componente, banco);
    assert forall k :: 0 <= k < |Selection(u, l, banco)| ==> Selection(u, l, banco)[k] == q[k];
  }

  lemma PositionsSnoc(s: seq<Key>, i: nat)
    requires i < |s|
    ensures Positions(s[..i + 1]) == Positions(s[..i]) + {s[i].pos}
  {
    assert s[..i + 1] == s[..i] + [s[i]];
  }

  lemma GridSnoc<X>(f: (TipoSangue, X) -> nat, ts: seq<TipoSangue>, i: nat, xs: seq<X>)
    requires i < |ts|
    ensures EmptyInGrid(f, ts[..i + 1], xs) ==
            (EmptyInGrid(f, ts[..i], xs) || exists k :: 0 <= k < |xs| && f(ts[i], xs[k]) == 0)
  {
    assert forall a :: 0 <= a <= i ==> ts[..i + 1][a] == ts[a];
    assert forall a :: 0 <= a < i ==> ts[..i][a] == ts[a];
  }
}
