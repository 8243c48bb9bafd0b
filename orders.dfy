/** The two state changes of a request made outside fulfilment: cancelar_pedido and rejeitar_pedido. */
module Orders {
  import opened Common
  import opened Models

  /** cancelar_pedido's three messages. */
  datatype Cancelamento = CancelamentoFeito | ApenasAtivos | SemPermissao

  /**
   * cancelar_pedido on a found request: the logged-in hospital (none when the
   * user has no hospital profile) must own the request, and the request must
   * be active.
   */
  function Cancelar(p: Pedido, logado: Option<nat>): (Estado, Cancelamento) {
    if logado.Some? && p.hospital == logado.value then
      if p.estado == Ativo then (Cancelado, CancelamentoFeito) else (p.estado, ApenasAtivos)
    else (p.estado, SemPermissao)
  }

  /**
   * The state becomes "cancelado" exactly when the caller owns the request
   * and it is active; in every other case it is left as it was, and the
   * message says which check failed, ownership first.
   */
  lemma CancelarSpec(p: Pedido, logado: Option<nat>)
    ensures var (e, m) := Cancelar(p, logado);
      && (e == Cancelado && p.estado != Cancelado <==> logado == Some(p.hospital) && p.estado == Ativo)
      && (e != p.estado ==> e == Cancelado)
      && (m == CancelamentoFeito <==> logado == Some(p.hospital) && p.estado == Ativo)
      && (m == SemPermissao <==> logado != Some(p.hospital))
  {
  }

  /** rejeitar_pedido: "rejeitado", from any state, without an ownership check. */
  function Rejeitar(p: Pedido): (r: Pedido)
    ensures r.estado == Rejeitado
    ensures r.(estado := p.estado) == p
  {
    p.(estado := Rejeitado)
  }

  /**
   * Cancellation never leaves a terminal state, while rejection does: a
   * concluded request, whose units are already consumed, becomes rejected.
   */
  lemma TerminalStates(p: Pedido, logado: Option<nat>)
    requires p.estado != Ativo
    ensures Cancelar(p, logado).0 == p.estado
    ensures p.estado == Concluido ==> Rejeitar(p).estado == Rejeitado != p.estado
  {
  }
}
