/**
 * The validators of forms.py: DadorForm's clinical checks (`clean`, which
 * adds its errors to the form one by one), DadorForm's NIF check
 * (`clean_nif`), DoacaoForm's donor lookup (`clean_nif_dador`), and the
 * optional quantity of LinhaPedidoForm with the filter criar_pedido applies
 * to the submitted lines.  The file holds both sides of an unresolved merge;
 * DoacaoForm comes from one side and the request forms from the other, and
 * both are modelled.
 */
module Forms {
  import opened Common
  import opened Calendar
  import opened Models

  datatype Campo = CampoDataNascimento | CampoPeso | CampoNif | CampoNifDador

  datatype Motivo =
    | IdadeMinima        // under 18
    | IdadeMaxima        // over 65 on a first registration
    | PesoMinimo         // under 50 kg
    | NifFormato         // not exactly nine digits
    | NifRegistado       // already used by a donor
    | NifDesconhecido    // no donor has it
    | DadorInativo       // the donor is not apt
    | NifAmbiguo         // several donors have it: `get` raises MultipleObjectsReturned, which nothing catches
    | Obrigatorio        // a required field left empty
    | Comprido           // longer than the field's max_length

  datatype ErroForm = ErroForm(campo: Campo, motivo: Motivo)

  /** The errors `DadorForm.clean` adds, in order, for the cleaned birth date and weight. */
  function ClinicalErrors(nasc: Option<Date>, peso: Option<real>, editando: bool, hoje: Date): (r: seq<ErroForm>)
    ensures ErroForm(CampoDataNascimento, IdadeMinima) in r <==> nasc.Some? && Idade(nasc, hoje).value < 18
    ensures ErroForm(CampoDataNascimento, IdadeMaxima) in r <==> nasc.Some? && !editando && Idade(nasc, hoje).value > 65
    ensures ErroForm(CampoPeso, PesoMinimo) in r <==> peso.Some? && peso.value < 50.0
    ensures forall e :: e in r ==> e.motivo in {IdadeMinima, IdadeMaxima, PesoMinimo}
  {
    var idade := Idade(nasc, hoje);
    (if nasc.Some? && idade.value < 18 then [ErroForm(CampoDataNascimento, IdadeMinima)] else []) +
    (if nasc.Some? && !editando && idade.value > 65 then [ErroForm(CampoDataNascimento, IdadeMaxima)] else []) +
    (if peso.Some? && peso.value < 50.0 then [ErroForm(CampoPeso, PesoMinimo)] else [])
  }

  /**
   * The clinical checks accept a donor exactly when the age (if a birth
   * date was given) is at least 18 and, on a first registration, at most 65,
   * and the weight (if one was given) is at least 50; an edit never meets
   * the upper age limit, and a missing weight never meets the weight limit.
   */
  lemma ClinicalAcceptance(nasc: Option<Date>, peso: Option<real>, editando: bool, hoje: Date)
    ensures var r := ClinicalErrors(nasc, peso, editando, hoje);
      && (r == [] <==>
            (nasc.Some? ==> 18 <= Idade(nasc, hoje).value && (editando || Idade(nasc, hoje).value <= 65)) &&
            (peso.Some? ==> peso.value >= 50.0))
      && (editando ==> ErroForm(CampoDataNascimento, IdadeMaxima) !in r)
      && (peso.None? ==> forall e :: e in r ==> e.campo != CampoPeso)
  {
  }

  /** A DadorForm: the instance it is bound to when editing, and the errors added so far. */
  class DadorForm {
    const instancia: Option<Dador>
    var errors: seq<ErroForm>

    constructor (instancia: Option<Dador>)
      ensures this.instancia == instancia && errors == []
    {
      this.instancia := instancia;
      errors := [];
    }

    method AddError(e: ErroForm)
      modifies this
      ensures errors == old(errors) + [e]
    {
      errors := errors + [e];
    }

    /** `clean`: each failed check adds its error to the form, the birth-date checks first. */
    method Clean(nasc: Option<Date>, peso: Option<real>, hoje: Date)
      modifies this
      ensures errors == old(errors) + ClinicalErrors(nasc, peso, instancia.Some?, hoje)
    {
      if nasc.Some? {
        var idade := Idade(nasc, hoje).value;
        if idade < 18 {
          AddError(ErroForm(CampoDataNascimento, IdadeMinima));
        }
        if instancia.None? && idade > 65 {
          AddError(ErroForm(CampoDataNascimento, IdadeMaxima));
        }
      }
      if peso.Some? && peso.value < 50.0 {
        AddError(ErroForm(CampoPeso, PesoMinimo));
      }
    }
  }

  predicate IsDigit(c: char) {
    '0' <= c <= '9'
  }

  /** Exactly nine characters, all digits. */
  predicate NifBemFormado(nif: string) {
    |nif| == 9 && forall i :: 0 <= i < |nif| ==> IsDigit(nif[i])
  }

  /**
   * `clean_nif`: when editing, the stored NIF whatever was submitted; on a
   * first registration a non-empty NIF must be nine digits, and no donor may
   * have it already.
   */
  function CleanNif(nif: string, instancia: Option<Dador>, dadores: seq<Dador>): (r: Result<string, Motivo>)
    ensures instancia.Some? ==> r == Ok(instancia.value.nif)
    ensures instancia.None? ==>
      (r.Ok? <==> (nif == "" || NifBemFormado(nif)) && forall i :: 0 <= i < |dadores| ==> dadores[i].nif != nif)
    ensures instancia.None? && r.Ok? ==> r.value == nif
    ensures r == Err(NifFormato) <==> instancia.None? && nif != "" && !NifBemFormado(nif)
    ensures r.Err? ==> r.error in {NifFormato, NifRegistado}
  {
    if instancia.Some? then Ok(instancia.value.nif)
    else if nif != "" && !NifBemFormado(nif) then Err(NifFormato)
    else if exists i :: 0 <= i < |dadores| && dadores[i].nif == nif then Err(NifRegistado)
    else Ok(nif)
  }

  /**
   * The checks of a required `CharField` with a `max_length`, which Django
   * runs before the form's `clean_<field>`: an empty value is refused as
   * missing, a longer one as too long.
   */
  function CampoTexto(s: string, maximo: nat): (r: Result<string, Motivo>)
    ensures r == Err(Obrigatorio) <==> s == ""
    ensures r == Err(Comprido) <==> s != "" && |s| > maximo
    ensures r.Ok? <==> 0 < |s| <= maximo
    ensures r.Ok? ==> r.value == s
  {
    if s == "" then Err(Obrigatorio) else if |s| > maximo then Err(Comprido) else Ok(s)
  }

  /** `Dador.nif` is a `CharField(max_length=12)`, so DadorForm's field is required with that limit. */
  const NifMaximo: nat := 12

  /** DadorForm's `nif` field: the field's own checks, then `clean_nif`. */
  function ValidarNif(nif: string, instancia: Option<Dador>, dadores: seq<Dador>): (r: Result<string, Motivo>)
    ensures nif == "" ==> r == Err(Obrigatorio)
    ensures |nif| > NifMaximo ==> r == Err(Comprido)
    ensures 0 < |nif| <= NifMaximo ==> r == CleanNif(nif, instancia, dadores)
  {
    match CampoTexto(nif, NifMaximo)
    case Err(m) => Err(m)
    case Ok(v) => CleanNif(v, instancia, dadores)
  }

  /**
   * A first registration accepts a NIF exactly when it is nine digits and
   * no donor has it: the required field closes the gap `clean_nif` leaves
   * for an empty value.
   */
  lemma RegistoNif(nif: string, dadores: seq<Dador>)
    ensures ValidarNif(nif, None, dadores).Ok? <==>
            NifBemFormado(nif) && forall i :: 0 <= i < |dadores| ==> dadores[i].nif != nif
    ensures ValidarNif(nif, None, dadores).Ok? ==> ValidarNif(nif, None, dadores).value == nif
  {
  }

  /** Editing can never change a donor's NIF. */
  lemma NifImmutable(submetido: string, d: Dador, dadores: seq<Dador>)
    ensures CleanNif(submetido, Some(d), dadores) == Ok(d.nif)
  {
  }

  /** What `Dador.objects.get(nif=nif)` finds. */
  datatype Procura = Nenhum | Unico(pos: nat) | Varios

  /** The rows before `n` whose NIF is `nif`, in table order. */
  function ComNif(ds: seq<Dador>, nif: string, n: nat): (r: seq<nat>)
    requires n <= |ds|
    ensures forall i :: 0 <= i < |r| ==> r[i] < n && ds[r[i]].nif == nif
    ensures forall i, j :: 0 <= i < j < |r| ==> r[i] < r[j]
    ensures forall p :: 0 <= p < n && ds[p].nif == nif ==> p in r
  {
    if n == 0 then []
    else ComNif(ds, nif, n - 1) + (if ds[n - 1].nif == nif then [n - 1] else [])
  }

  function ProcurarNif(ds: seq<Dador>, nif: string): (r: Procura)
    ensures r == Nenhum <==> forall i :: 0 <= i < |ds| ==> ds[i].nif != nif
    ensures r.Unico? ==> r.pos < |ds| && ds[r.pos].nif == nif &&
                         forall i :: 0 <= i < |ds| && i != r.pos ==> ds[i].nif != nif
    ensures r == Varios <==> exists i, j :: 0 <= i < j < |ds| && ds[i].nif == nif && ds[j].nif == nif
  {
    var m := ComNif(ds, nif, |ds|);
    if |m| == 0 then Nenhum
    else if |m| == 1 then
      assert forall p :: 0 <= p < |ds| && ds[p].nif == nif ==> p == m[0];
      Unico(m[0])
    else
      assert ds[m[0]].nif == nif && ds[m[1]].nif == nif && m[0] < m[1];
      Varios
  }

  /** No two donors share a NIF. */
  ghost predicate NifsUnicos(ds: seq<Dador>) {
    forall i, j :: 0 <= i < j < |ds| ==> ds[i].nif != ds[j].nif
  }

  /**
   * `DoacaoForm.clean_nif_dador`: an unknown NIF and an inactive donor are
   * refused; otherwise the donor (its row) is the cleaned value.
   */
  function CleanNifDador(nif: string, ds: seq<Dador>): (r: Result<nat, Motivo>)
    ensures r.Ok? ==> r.value < |ds| && ds[r.value].nif == nif && ds[r.value].ativo
    ensures r == Err(NifDesconhecido) <==> forall i :: 0 <= i < |ds| ==> ds[i].nif != nif
    ensures r == Err(DadorInativo) <==> ProcurarNif(ds, nif).Unico? && !ds[ProcurarNif(ds, nif).pos].ativo
    ensures r.Err? ==> r.error in {NifDesconhecido, DadorInativo, NifAmbiguo}
  {
    match ProcurarNif(ds, nif)
    case Nenhum => Err(NifDesconhecido)
    case Varios => Err(NifAmbiguo)
    case Unico(p) => if ds[p].ativo then Ok(p) else Err(DadorInativo)
  }

  /** `nif_dador` is a `CharField(max_length=9)`, required. */
  const NifDadorMaximo: nat := 9

  /** DoacaoForm's `nif_dador` field: the field's own checks, then `clean_nif_dador`. */
  function ValidarNifDador(nif: string, ds: seq<Dador>): (r: Result<nat, Motivo>)
    ensures nif == "" ==> r == Err(Obrigatorio)
    ensures |nif| > NifDadorMaximo ==> r == Err(Comprido)
    ensures 0 < |nif| <= NifDadorMaximo ==> r == CleanNifDador(nif, ds)
  {
    match CampoTexto(nif, NifDadorMaximo)
    case Err(m) => Err(m)
    case Ok(v) => CleanNifDador(v, ds)
  }

  /** With unique NIFs the lookup in clean_nif_dador never meets several donors, and finds any apt donor by NIF. */
  lemma CleanNifDadorUnique(nif: string, ds: seq<Dador>, p: nat)
    requires NifsUnicos(ds) && p < |ds| && ds[p].nif == nif
    ensures CleanNifDador(nif, ds) == if ds[p].ativo then Ok(p) else Err(DadorInativo)
  {
  }

  /**
   * With unique NIFs, a stored donor's well-formed NIF passes the field and
   * the lookup finds that donor: refused exactly when inactive.
   */
  lemma ValidarNifDadorUnique(ds: seq<Dador>, p: nat)
    requires NifsUnicos(ds) && p < |ds| && NifBemFormado(ds[p].nif)
    ensures ValidarNifDador(ds[p].nif, ds) == if ds[p].ativo then Ok(p) else Err(DadorInativo)
  {
    CleanNifDadorUnique(ds[p].nif, ds, p);
  }

  /** One line of the request formset: the quantity is optional. */
  datatype CampoLinha = CampoLinha(tipo: TipoSangue, componente: Componente, quantidade: Option<int>)

  /** criar_pedido saves a line only when its quantity is given and positive. */
  predicate Guardada(f: CampoLinha) {
    f.quantidade.Some? && f.quantidade.value > 0
  }

  function ComoLinha(f: CampoLinha): Linha
    requires Guardada(f)
  {
    Linha(f.tipo, f.componente, f.quantidade.value)
  }

  /** The lines criar_pedido saves, in the formset's order. */
  function LinhasCriadas(fs: seq<CampoLinha>): (r: seq<Linha>)
    ensures |r| <= |fs|
    ensures forall i :: 0 <= i < |r| ==> r[i].quantidade > 0
    ensures forall i :: 0 <= i < |fs| && Guardada(fs[i]) ==> ComoLinha(fs[i]) in r
    ensures forall l :: l in r ==> exists i :: 0 <= i < |fs| && Guardada(fs[i]) && ComoLinha(fs[i]) == l
    decreases |fs|
  {
    if fs == [] then []
    else
      var n := |fs| - 1;
      var prev := LinhasCriadas(fs[..n]);
      assert forall i :: 0 <= i < n ==> fs[..n][i] == fs[i];
      prev + (if Guardada(fs[n]) then [ComoLinha(fs[n])] else [])
  }

  /** The positions of the formset whose line is saved, in ascending order. */
  function Guardados(fs: seq<CampoLinha>): (r: seq<nat>)
    ensures forall k :: 0 <= k < |r| ==> r[k] < |fs| && Guardada(fs[r[k]])
    ensures forall k, m :: 0 <= k < m < |r| ==> r[k] < r[m]
    ensures forall i :: 0 <= i < |fs| ==> (Guardada(fs[i]) <==> i in r)
    decreases |fs|
  {
    if fs == [] then []
    else
      var n := |fs| - 1;
      assert forall i :: 0 <= i < n ==> fs[..n][i] == fs[i];
      Guardados(fs[..n]) + (if Guardada(fs[n]) then [n] else [])
  }

  /**
   * The saved lines are the formset's saved entries, one for each, in the
   * formset's order: a line given twice is saved twice.
   */
  lemma {:induction false} LinhasCriadasOrdem(fs: seq<CampoLinha>)
    ensures var g := Guardados(fs);
      && |LinhasCriadas(fs)| == |g|
      && forall k :: 0 <= k < |g| ==> LinhasCriadas(fs)[k] == ComoLinha(fs[g[k]])
    decreases |fs|
  {
    if fs != [] {
      var n := |fs| - 1;
      var fs0 := fs[..n];
      var prev, g0 := LinhasCriadas(fs0), Guardados(fs0);
      LinhasCriadasOrdem(fs0);
      var r, g := LinhasCriadas(fs), Guardados(fs);
      assert r == prev + (if Guardada(fs[n]) then [ComoLinha(fs[n])] else []);
      assert g == g0 + (if Guardada(fs[n]) then [n] else []);
      forall k | 0 <= k < |g| ensures r[k] == ComoLinha(fs[g[k]]) {
        if k < |g0| {
          assert r[k] == prev[k] && g[k] == g0[k];
          assert fs0[g0[k]] == fs[g0[k]];
        }
      }
    }
  }
}
