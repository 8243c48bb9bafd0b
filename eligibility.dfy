/**
 * Donor eligibility as the views decide it: the resting period after a
 * donation (ativar_dador, historico_dador), the date of a donor's latest
 * donation, the activation gate, and what recording a donation does to the
 * donor (registar_doacao).
 */
module Eligibility {
  import opened Common
  import opened Calendar
  import opened Models

  /** The resting period in days: 120 when `genero == 'Feminino'`, 90 for anything else. */
  function Intervalo(genero: string): (n: nat)
    ensures n == 120 || n == 90
    ensures n == 120 <==> genero == "Feminino"
  {
    if genero == "Feminino" then 120 else 90
  }

  /**
   * `Doacao.objects.filter(dador=dador).order_by('-data').first()`, read for
   * its date: the latest day on which the donor gave a unit, whatever the
   * unit's state, or none if the donor never did.
   */
  function UltimaData(u: seq<Doacao>, dador: nat): (r: Option<int>)
    ensures r.None? <==> forall i :: 0 <= i < |u| ==> u[i].dador != dador
    ensures r.Some? ==> exists i :: 0 <= i < |u| && u[i].dador == dador && u[i].data == r.value
    ensures r.Some? ==> forall i :: 0 <= i < |u| && u[i].dador == dador ==> u[i].data <= r.value
    decreases |u|
  {
    if u == [] then None
    else
      var n := |u| - 1;
      var prev := UltimaData(u[..n], dador);
      assert forall i :: 0 <= i < n ==> u[..n][i] == u[i];
      if u[n].dador != dador then prev
      else if prev.Some? && prev.value >= u[n].data then prev
      else Some(u[n].data)
  }

  /** historico_dador's countdown `max(0, intervalo - dias_passados)`, 0 when there is no donation. */
  function DiasRestantes(genero: string, ultima: Option<int>, hoje: int): (r: nat)
    ensures r == 0 <==> ultima.None? || hoje - ultima.value >= Intervalo(genero)
    ensures ultima.Some? && hoje >= ultima.value ==> r <= Intervalo(genero)
  {
    match ultima
    case None => 0
    case Some(d) => Max(0, Intervalo(genero) - (hoje - d))
  }

  /** Each day that passes takes one day off the countdown until it reaches 0. */
  lemma CountdownTicks(genero: string, ultima: int, hoje: int)
    ensures DiasRestantes(genero, Some(ultima), hoje + 1) == Max(0, DiasRestantes(genero, Some(ultima), hoje) - 1)
  {
  }

  /** On the day of a donation the countdown shows the whole resting period. */
  lemma CountdownOnDonationDay(genero: string, hoje: int)
    ensures DiasRestantes(genero, Some(hoje), hoje) == Intervalo(genero)
  {
  }

  /** The outcomes of ativar_dador. */
  datatype Ativacao = Ativado | Menor | EmCarencia(faltam: int)

  /** ativar_dador's two checks, in the view's order: age, then the resting period since the latest donation. */
  function Ativar(d: Dador, ultima: Option<int>, hoje: Date): Ativacao
    requires Valid(hoje)
  {
    if Idade(Some(d.dataNascimento), hoje).value < 18 then Menor
    else if ultima.Some? && Ordinal(hoje) - ultima.value < Intervalo(d.genero) then
      EmCarencia(Intervalo(d.genero) - (Ordinal(hoje) - ultima.value))
    else Ativado
  }

  /**
   * Activation succeeds exactly for an adult whose countdown is at 0; it
   * fails for a minor first; the days it reports as missing are the
   * countdown historico_dador shows.
   */
  lemma ActivationGate(d: Dador, ultima: Option<int>, hoje: Date)
    requires Valid(hoje)
    ensures var r := Ativar(d, ultima, hoje);
      var dias := DiasRestantes(d.genero, ultima, Ordinal(hoje));
      && (r == Ativado <==> Idade(Some(d.dataNascimento), hoje).value >= 18 && dias == 0)
      && (r == Menor <==> Idade(Some(d.dataNascimento), hoje).value < 18)
      && (r.EmCarencia? ==> r.faltam == dias && dias > 0)
  {
  }

  /** registar_doacao's effect on the donor: the latest donation is today and the donor is no longer apt. */
  function AposDoacao(d: Dador, hoje: int): (r: Dador)
    ensures !r.ativo && r.ultimaDoacao == Some(hoje)
    ensures r.(ativo := d.ativo, ultimaDoacao := d.ultimaDoacao) == d
  {
    d.(ultimaDoacao := Some(hoje), ativo := false)
  }

  /** An adult who gave a unit today cannot be activated again today: the whole resting period is missing. */
  lemma NoActivationOnDonationDay(d: Dador, hoje: Date)
    requires Valid(hoje) && Idade(Some(d.dataNascimento), hoje).value >= 18
    ensures Ativar(AposDoacao(d, Ordinal(hoje)), Some(Ordinal(hoje)), hoje) == EmCarencia(Intervalo(d.genero))
  {
  }
}
