/**
 * The entities of the blood bank (models.py): the two choice enumerations,
 * donors, donation units, requests and request lines, their defaults, and
 * the donor's age property.  Every table row is identified by its position
 * in the store (views.dfy), which plays the part of the auto-increment id.
 */
module Models {
  import opened Common
  import opened Calendar

  /** `TipoSangue`: the eight blood groups. */
  datatype TipoSangue =
    | APositivo | ANegativo | BPositivo | BNegativo
    | ABPositivo | ABNegativo | OPositivo | ONegativo

  /** The code stored in the database for each group. */
  function TipoCodigo(t: TipoSangue): string {
    match t
    case APositivo => "A+"
    case ANegativo => "A-"
    case BPositivo => "B+"
    case BNegativo => "B-"
    case ABPositivo => "AB+"
    case ABNegativo => "AB-"
    case OPositivo => "O+"
    case ONegativo => "O-"
  }

  /** `TipoSangue.choices`, in declaration order. */
  const TodosTipos: seq<TipoSangue> :=
    [APositivo, ANegativo, BPositivo, BNegativo, ABPositivo, ABNegativo, OPositivo, ONegativo]

  /** `Componente`: the three components a unit can hold. */
  datatype Componente = Sangue | Globulos | Plasma

  function ComponenteCodigo(c: Componente): string {
    match c
    case Sangue => "sangue"
    case Globulos => "globulos"
    case Plasma => "plasma"
  }

  const TodosComponentes: seq<Componente> := [Sangue, Globulos, Plasma]

  /** The states a request goes through, stored as strings by the views. */
  datatype Estado = Ativo | Concluido | Cancelado | Rejeitado

  function EstadoCodigo(e: Estado): string {
    match e
    case Ativo => "ativo"
    case Concluido => "concluido"
    case Cancelado => "cancelado"
    case Rejeitado => "rejeitado"
  }

  /**
   * `Dador`.  The name and telephone number take no part in any rule and are
   * left out; `ultimaDoacao` is a day number.
   */
  datatype Dador = Dador(
    nif: string,
    dataNascimento: Date,
    genero: string,
    peso: real,
    tipo: TipoSangue,
    ativo: bool,
    ultimaDoacao: Option<int>,
    banco: nat)

  /**
   * `Doacao`: one unit of blood.  `data` is a day number; `dador` is the
   * donor's row; `tipo` is the donor's blood group, which the queries reach
   * through `dador__tipo_sangue`.
   */
  datatype Doacao = Doacao(
    data: int,
    componente: Componente,
    valido: bool,
    dador: nat,
    tipo: TipoSangue,
    banco: nat)

  /** `LinhaPedido`: one (group, component, quantity) line of a request. */
  datatype Linha = Linha(tipo: TipoSangue, componente: Componente, quantidade: nat)

  /** `Pedido`, with its lines (`pedido.itens`). */
  datatype Pedido = Pedido(
    hospital: nat,
    data: int,
    estado: Estado,
    banco: nat,
    itens: seq<Linha>)

  /** A donor as registration creates it: `ativo` defaults to true and there is no donation yet. */
  function NovoDador(nif: string, nasc: Date, genero: string, peso: real, tipo: TipoSangue, banco: nat): (d: Dador)
    ensures d.ativo && d.ultimaDoacao == None
    ensures d.nif == nif && d.dataNascimento == nasc && d.tipo == tipo && d.banco == banco
  {
    Dador(nif, nasc, genero, peso, tipo, true, None, banco)
  }

  /** A unit as a donation creates it: in stock (`valido` is true) and in the donor's bank. */
  function NovaDoacao(hoje: int, componente: Componente, dador: nat, d: Dador): (u: Doacao)
    ensures u.valido && u.banco == d.banco && u.tipo == d.tipo
    ensures u.data == hoje && u.componente == componente && u.dador == dador
  {
    Doacao(hoje, componente, true, dador, d.tipo, d.banco)
  }

  /** A request as submission creates it: active. */
  function NovoPedido(hospital: nat, hoje: int, banco: nat, itens: seq<Linha>): (p: Pedido)
    ensures p.estado == Ativo && p.itens == itens && p.banco == banco && p.hospital == hospital
  {
    Pedido(hospital, hoje, Ativo, banco, itens)
  }

  /** This year's birthday has not come yet on `hoje`: `(month, day)` compares as a tuple. */
  predicate BirthdayPending(hoje: Date, nasc: Date) {
    hoje.month < nasc.month || (hoje.month == nasc.month && hoje.day < nasc.day)
  }

  /** `Dador.idade`: completed years on `hoje`, or none without a birth date. */
  function Idade(nasc: Option<Date>, hoje: Date): (r: Option<int>)
    ensures r.None? <==> nasc.None?
  {
    match nasc
    case None => None
    case Some(n) =>
      var age := hoje.year - n.year;
      Some(if BirthdayPending(hoje, n) then age - 1 else age)
  }

  /** The age is the year difference, less one exactly while this year's birthday is still to come. */
  lemma IdadeYearDifference(nasc: Date, hoje: Date)
    ensures var a := Idade(Some(nasc), hoje).value;
      (a == hoje.year - nasc.year || a == hoje.year - nasc.year - 1) &&
      (a == hoje.year - nasc.year - 1 <==> BirthdayPending(hoje, nasc))
  {
  }

  /** On the birthday itself the year already counts. */
  lemma IdadeOnBirthday(nasc: Date, hoje: Date)
    requires hoje.month == nasc.month && hoje.day == nasc.day
    ensures Idade(Some(nasc), hoje) == Some(hoje.year - nasc.year)
  {
  }

  /**
   * An independent reading of the age: it is at least `n` exactly when the
   * `n`-th anniversary of the birth date is on or before `hoje`.
   */
  lemma IdadeAnniversary(nasc: Date, hoje: Date, n: int)
    ensures Idade(Some(nasc), hoje).value >= n <==>
            !Precedes(hoje, Date(nasc.year + n, nasc.month, nasc.day))
  {
  }

  /** The age never goes down as time passes. */
  lemma IdadeMonotone(nasc: Date, hoje: Date, depois: Date)
    requires !Precedes(depois, hoje)
    ensures Idade(Some(nasc), hoje).value <= Idade(Some(nasc), depois).value
  {
    var a := Idade(Some(nasc), hoje).value;
    IdadeAnniversary(nasc, hoje, a);
    IdadeAnniversary(nasc, depois, a);
  }

  /** The database codes name exactly eight distinct groups and three distinct components. */
  lemma ChoicesEnumerated()
    ensures |TodosTipos| == 8 && forall t :: t in TodosTipos
    ensures forall i, j :: 0 <= i < j < |TodosTipos| ==> TipoCodigo(TodosTipos[i]) != TipoCodigo(TodosTipos[j])
    ensures |TodosComponentes| == 3 && forall c :: c in TodosComponentes
    ensures forall i, j :: 0 <= i < j < 3 ==> ComponenteCodigo(TodosComponentes[i]) != ComponenteCodigo(TodosComponentes[j])
  {
    forall t ensures t in TodosTipos {
      match t
      case APositivo => assert TodosTipos[0] == t;
      case ANegativo => assert TodosTipos[1] == t;
      case BPositivo => assert TodosTipos[2] == t;
      case BNegativo => assert TodosTipos[3] == t;
      case ABPositivo => assert TodosTipos[4] == t;
      case ABNegativo => assert TodosTipos[5] == t;
      case OPositivo => assert TodosTipos[6] == t;
      case ONegativo => assert TodosTipos[7] == t;
    }
    forall c ensures c in TodosComponentes {
      match c
      case Sangue => assert TodosComponentes[0] == c;
      case Globulos => assert TodosComponentes[1] == c;
      case Plasma => assert TodosComponentes[2] == c;
    }
  }
}
