/** The helper-payment hook: the record `addPagamento` writes and the
    expense figure it derives from the loaded list. */
module UsePagamentos {
  import opened Options
  import opened Types
  import Folds

  /** `addPagamento`: the caller's record goes to the store as it is; the
      store assigns the id, and nothing else is added. */
  function AddPagamento(novo: NovoPagamento): (doc: PagamentoAjudante)
    ensures doc.id == None && doc.status == None
  {
    PagamentoAjudante(None, novo.nome_ajudante, novo.data_trabalho, novo.valor_pago, None)
  }

  /** The caller's part of a stored payment. */
  function CallerFields(p: PagamentoAjudante): NovoPagamento {
    NovoPagamento(p.nome_ajudante, p.data_trabalho, p.valor_pago)
  }

  /** The stored record reads back as exactly what the caller passed, and
      stored records without a status or id come only from this shape. */
  lemma AddPagamentoRoundTrip(novo: NovoPagamento, p: PagamentoAjudante)
    ensures CallerFields(AddPagamento(novo)) == novo
    ensures p.id == None && p.status == None ==> AddPagamento(CallerFields(p)) == p
  {
  }

  function ValorPago(p: PagamentoAjudante): real {
    p.valor_pago
  }

  /** `totalDespesas`: a left fold of the amounts over every payment. */
  function TotalDespesas(pagamentos: seq<PagamentoAjudante>): (r: real)
    ensures r == Folds.Sum(pagamentos, ValorPago)
  {
    Folds.Reduce(pagamentos, ValorPago, 0.0)
  }

  lemma TotalDespesasOfEmpty()
    ensures TotalDespesas([]) == 0.0
  {
  }

  /** Recording one more payment raises the figure by exactly its amount. */
  lemma TotalDespesasAppend(pagamentos: seq<PagamentoAjudante>, p: PagamentoAjudante)
    ensures TotalDespesas(pagamentos + [p]) == TotalDespesas(pagamentos) + p.valor_pago
  {
    Folds.ReduceAppend(pagamentos, p, ValorPago);
  }

  /** The figure does not depend on the order the store delivers the list
      in (newest work date first). */
  lemma TotalDespesasOrderFree(xs: seq<PagamentoAjudante>, ys: seq<PagamentoAjudante>)
    requires multiset(xs) == multiset(ys)
    ensures TotalDespesas(xs) == TotalDespesas(ys)
  {
    Folds.SumPermutation(xs, ys, ValorPago);
  }

  /** Only the amounts matter: two lists whose amounts agree one by one have
      the same total, whatever their names, dates and statuses. */
  lemma {:induction false} TotalDespesasOnlyAmounts(xs: seq<PagamentoAjudante>, ys: seq<PagamentoAjudante>)
    requires |xs| == |ys|
    requires forall i :: 0 <= i < |xs| ==> xs[i].valor_pago == ys[i].valor_pago
    ensures TotalDespesas(xs) == TotalDespesas(ys)
    decreases |xs|
  {
    if |xs| > 0 {
      TotalDespesasOnlyAmounts(xs[1..], ys[1..]);
      assert Folds.Sum(xs[1..], ValorPago) == Folds.Sum(ys[1..], ValorPago);
    }
  }
}
