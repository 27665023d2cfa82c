/** The helper-payment list: which list it shows, its loading and empty
    states, how each payment's status is read (a missing one counts as
    "PENDENTE"), and what the row buttons hand to the hook. */
module PagamentosList {
  import opened Options
  import opened Types
  import Folds
  import UsePagamentos

  /** The status a row works with: the stored one when it is a non-empty
      string, otherwise "PENDENTE" (older payments have none). */
  function EffectiveStatus(p: PagamentoAjudante): (st: string)
    ensures st != ""
    ensures Truthy(p.status) ==> st == p.status.value
  {
    if Truthy(p.status) then p.status.value else "PENDENTE"
  }

  /** `isPago`: a payment is paid exactly when its stored status is the
      string "PAGO"; a missing, empty or any other status is not. */
  predicate IsPago(p: PagamentoAjudante): (paid: bool)
    ensures paid <==> p.status == Some("PAGO")
  {
    EffectiveStatus(p) == "PAGO"
  }

  /** A payment without a stored status, or with an empty one, is read as
      pending. */
  lemma MissingStatusIsPendente(p: PagamentoAjudante)
    requires !Truthy(p.status)
    ensures EffectiveStatus(p) == "PENDENTE" && !IsPago(p)
  {
  }

  /** The text of the status badge: "PAGO", or "PENDENTE" for every other
      status, whatever it says. */
  function BadgeText(p: PagamentoAjudante): (t: string)
    ensures t == "PAGO" <==> p.status == Some("PAGO")
    ensures t == "PAGO" || t == "PENDENTE"
  {
    if IsPago(p) then "PAGO" else "PENDENTE"
  }

  /** The label of the toggle button: it offers the opposite of the badge. */
  function ToggleLabel(p: PagamentoAjudante): (t: string)
    ensures t == "Marcar Pendente" <==> BadgeText(p) == "PAGO"
  {
    if IsPago(p) then "Marcar Pendente" else "Pagar"
  }

  /** `pagamento.id && togglePagamentoStatus(pagamento.id, pagamento.status)`:
      the call is made only for a payment with an id, and it is handed the
      status as stored, not the one the row shows. */
  function ToggleCall(p: PagamentoAjudante): (c: Option<(string, Option<string>)>)
    ensures c.Some? <==> Truthy(p.id)
    ensures c.Some? ==> c.value.0 == p.id.value && c.value.1 == p.status
  {
    if Truthy(p.id) then Some((p.id.value, p.status)) else None
  }

  /** A payment without a stored status shows "PENDENTE" but its toggle is
      handed `undefined`, not "PENDENTE". */
  lemma ToggleSeesRawStatus(p: PagamentoAjudante)
    requires Truthy(p.id) && p.status == None
    ensures BadgeText(p) == "PENDENTE"
    ensures ToggleCall(p).value.1 == None != Some(EffectiveStatus(p))
  {
  }

  /** `pagamento.id && deletePagamento(pagamento.id)`. */
  function DeleteCall(p: PagamentoAjudante): (id: Option<string>)
    ensures id.Some? <==> Truthy(p.id)
    ensures id.Some? ==> id == p.id
  {
    if Truthy(p.id) then p.id else None
  }

  /** `data || allPagamentos`: an array is truthy even when empty, so a
      given `data` prop always wins over the hook's list. */
  function ShownList(data: Option<seq<PagamentoAjudante>>, hook: seq<PagamentoAjudante>): (xs: seq<PagamentoAjudante>)
    ensures data.Some? ==> xs == data.value
    ensures data.None? ==> xs == hook
  {
    data.GetOr(hook)
  }

  /** What one row shows. */
  datatype PagamentoRow = PagamentoRow(nome: string, badge: string, valor: real, toggle: string)

  /** One row: the helper's name and amount as stored, a badge that says
      "PAGO" exactly for a payment stored as paid, and the toggle offering
      the opposite. */
  function Row(p: PagamentoAjudante): (r: PagamentoRow)
    ensures r.nome == p.nome_ajudante && r.valor == p.valor_pago
    ensures r.badge == "PAGO" <==> p.status == Some("PAGO")
    ensures r.badge == "PAGO" || r.badge == "PENDENTE"
    ensures r.toggle == "Marcar Pendente" <==> r.badge == "PAGO"
  {
    PagamentoRow(p.nome_ajudante, BadgeText(p), p.valor_pago, ToggleLabel(p))
  }

  datatype PagamentosView = Skeleton | NoPagamentos | Rows(rows: seq<PagamentoRow>)

  /** The component: the skeleton while the hook loads and no `data` prop
      is given, the empty state for an empty list, otherwise one row per
      payment in list order. */
  function PagamentosListView(data: Option<seq<PagamentoAjudante>>, hook: seq<PagamentoAjudante>, loading: bool): (v: PagamentosView)
    ensures v.Skeleton? <==> loading && data.None?
    ensures v.NoPagamentos? <==> !(loading && data.None?) && |ShownList(data, hook)| == 0
    ensures v.Rows? ==> |v.rows| == |ShownList(data, hook)|
    ensures v.Rows? ==> forall i :: 0 <= i < |v.rows| ==> v.rows[i] == Row(ShownList(data, hook)[i])
  {
    if loading && data.None? then Skeleton
    else
      var xs := ShownList(data, hook);
      if |xs| == 0 then NoPagamentos
      else Rows(seq(|xs|, i requires 0 <= i < |xs| => Row(xs[i])))
  }

  /** With a `data` prop the hook's list and its loading flag change
      nothing, and an empty prop shows the empty state even while the hook
      is still loading. */
  lemma DataPropWins(data: seq<PagamentoAjudante>, hook1: seq<PagamentoAjudante>, hook2: seq<PagamentoAjudante>, l1: bool, l2: bool)
    ensures PagamentosListView(Some(data), hook1, l1) == PagamentosListView(Some(data), hook2, l2)
    ensures |data| == 0 ==> PagamentosListView(Some(data), hook1, l1) == NoPagamentos
  {
  }

  /** Every row's badge reads "PENDENTE" exactly when the payment is not
      stored as "PAGO". */
  lemma RowsShowStatus(data: Option<seq<PagamentoAjudante>>, hook: seq<PagamentoAjudante>, loading: bool, i: nat)
    requires PagamentosListView(data, hook, loading).Rows?
    requires i < |PagamentosListView(data, hook, loading).rows|
    ensures PagamentosListView(data, hook, loading).rows[i].badge == "PENDENTE"
      <==> ShownList(data, hook)[i].status != Some("PAGO")
  {
    var xs := ShownList(data, hook);
    assert PagamentosListView(data, hook, loading).rows[i] == Row(xs[i]);
  }

  function NotPago(p: PagamentoAjudante): bool {
    !IsPago(p)
  }

  /** The expense figure counts every payment whatever its status: it is
      the paid amounts plus the pending ones. */
  lemma DespesasSplitByStatus(pagamentos: seq<PagamentoAjudante>)
    ensures UsePagamentos.TotalDespesas(pagamentos)
      == Folds.Sum(Folds.Filter(pagamentos, IsPago), UsePagamentos.ValorPago)
       + Folds.Sum(Folds.Filter(pagamentos, NotPago), UsePagamentos.ValorPago)
  {
    Folds.SumPartition(pagamentos, IsPago, NotPago, UsePagamentos.ValorPago);
  }
}
