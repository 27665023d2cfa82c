/** The service-order hook: the record `addServico` writes, the partial
    update `updateServicoStatus` writes, and the two dashboard figures it
    derives from the loaded list. The store itself is left out: a write is
    the record or payload it would send, and the clock reading is a
    parameter. */
module UseServicos {
  import opened Options
  import opened Types
  import Folds

  /** The value of a lot: piece count times unit price. It is zero exactly
      when one of the two is, and positive when both are. */
  function LoteTotal(q: int, v: real): (t: real)
    ensures t == 0.0 <==> q == 0 || v == 0.0
    ensures q > 0 && v > 0.0 ==> t > 0.0
  {
    q as real * v
  }

  /** The stored lot value agrees with quantity and unit price. */
  predicate LoteConsistent(s: Servico) {
    s.valor_total_lote == Some(LoteTotal(s.quantidade_total, s.valor_unitario))
  }

  /** The fields a caller of `addServico` controls, read back from a stored
      record. */
  function CallerFields(s: Servico): NovoServico {
    NovoServico(s.fornecedor, s.cliente, s.tipo_peca, s.tipo_tecido, s.tamanhos,
      s.detalhe_tamanhos, s.quantidade_total, s.valor_unitario, s.numero_op,
      s.data_chegada, s.data_inicio, s.data_conclusao, s.foto_op_url, s.status,
      s.observacoes)
  }

  /** `addServico`: the caller's fields spread first, then the computed batch
      value, the entry time and the literal status, which therefore wins over
      whatever status the caller passed. The store assigns the id. */
  function AddServico(novo: NovoServico, now: Timestamp): (s: Servico)
    ensures LoteConsistent(s)
    ensures s.status == StatusString(Pendente)
    ensures s.data_entrada == now && s.id == None
  {
    Servico(None, novo.fornecedor, novo.cliente, novo.tipo_peca, novo.tipo_tecido,
      novo.tamanhos, novo.detalhe_tamanhos, novo.quantidade_total, novo.valor_unitario,
      Some(LoteTotal(novo.quantidade_total, novo.valor_unitario)), now, novo.numero_op,
      novo.data_chegada, novo.data_inicio, novo.data_conclusao, novo.foto_op_url,
      "PENDENTE", novo.observacoes)
  }

  /** Every field the caller passed is stored as passed, except the status,
      which is replaced by "PENDENTE". */
  lemma AddServicoKeepsCallerFields(novo: NovoServico, now: Timestamp)
    ensures CallerFields(AddServico(novo, now)) == novo.(status := StatusString(Pendente))
    ensures novo.status != StatusString(Pendente) ==> CallerFields(AddServico(novo, now)) != novo
  {
  }

  /** The partial update `updateServicoStatus` sends: the target status, and
      at most one of the two timestamps. */
  datatype StatusUpdate = StatusUpdate(
    status: StatusServico,
    data_inicio: Option<Timestamp>,
    data_conclusao: Option<Timestamp>)

  /** `updateServicoStatus(id, status)`: the payload depends only on the
      target status and the clock, never on the document's current state. */
  function StatusPayload(target: StatusServico, now: Timestamp): (u: StatusUpdate)
    ensures u.status == target
    ensures u.data_inicio.Some? <==> target == EmAndamento
    ensures u.data_conclusao.Some? <==> target == Concluido
    ensures !(u.data_inicio.Some? && u.data_conclusao.Some?)
    ensures u.data_inicio.Some? ==> u.data_inicio.value == now
    ensures u.data_conclusao.Some? ==> u.data_conclusao.value == now
  {
    if target == EmAndamento then StatusUpdate(target, Some(now), None)
    else if target == Concluido then StatusUpdate(target, None, Some(now))
    else StatusUpdate(target, None, None)
  }

  /** The document after the store merges a payload into it: the fields the
      payload carries are overwritten, all others are kept. */
  function ApplyStatusUpdate(s: Servico, u: StatusUpdate): (r: Servico)
    ensures r.status == StatusString(u.status)
  {
    s.(status := StatusString(u.status),
       data_inicio := if u.data_inicio.Some? then u.data_inicio else s.data_inicio,
       data_conclusao := if u.data_conclusao.Some? then u.data_conclusao else s.data_conclusao)
  }

  /** A status update touches only the status and the timestamp of the
      target state; in particular it keeps the batch value consistent. */
  lemma StatusUpdateFrame(s: Servico, target: StatusServico, now: Timestamp)
    ensures var r := ApplyStatusUpdate(s, StatusPayload(target, now));
      && r.(status := s.status, data_inicio := s.data_inicio, data_conclusao := s.data_conclusao) == s
      && (target != EmAndamento ==> r.data_inicio == s.data_inicio)
      && (target != Concluido ==> r.data_conclusao == s.data_conclusao)
      && (LoteConsistent(s) ==> LoteConsistent(r))
  {
  }

  /** There is no transition guard: from any document, whatever its current
      status (canonical, legacy, missing or unknown), every target is
      written. */
  lemma AnyTransitionAccepted(s: Servico, target: StatusServico, now: Timestamp)
    ensures ApplyStatusUpdate(s, StatusPayload(target, now)).status == StatusString(target)
  {
  }

  /** Starting and then finishing an order records both moments. */
  lemma StartThenFinish(s: Servico, t1: Timestamp, t2: Timestamp)
    ensures var r := ApplyStatusUpdate(ApplyStatusUpdate(s, StatusPayload(EmAndamento, t1)), StatusPayload(Concluido, t2));
      r.status == StatusString(Concluido) && r.data_inicio == Some(t1) && r.data_conclusao == Some(t2)
  {
  }

  /** Entering EM_ANDAMENTO again overwrites the start time, and moving back
      to PENDENTE clears neither timestamp. */
  lemma TimestampsAreNotReset(s: Servico, t1: Timestamp, t2: Timestamp)
    ensures ApplyStatusUpdate(ApplyStatusUpdate(s, StatusPayload(EmAndamento, t1)), StatusPayload(EmAndamento, t2)).data_inicio == Some(t2)
    ensures var r := ApplyStatusUpdate(s, StatusPayload(Pendente, t1));
      r.data_inicio == s.data_inicio && r.data_conclusao == s.data_conclusao
  {
  }

  /** The order carries a lot value. */
  predicate Valued(s: Servico) {
    s.valor_total_lote.Some?
  }

  /** The lot value, or 0 for an order without one: what `Sum` adds up over
      orders that all carry one. */
  function ValorLote(s: Servico): (v: real)
    ensures Valued(s) ==> s.valor_total_lote == Some(v)
    ensures !Valued(s) ==> v == 0.0
  {
    s.valor_total_lote.GetOr(0.0)
  }

  /** JavaScript `+` on numbers that may be `NaN` (`None`); `undefined`
      added to a number is `NaN` as well. */
  function Plus(a: Option<real>, b: Option<real>): Option<real> {
    if a.Some? && b.Some? then Some(a.value + b.value) else None
  }

  /** `xs.reduce((acc, s) => acc + s.valor_total_lote, acc)`: the sum from
      the left, which turns `NaN` at the first order without a lot value
      and stays `NaN`. */
  function ReduceLotes(xs: seq<Servico>, acc: Option<real>): (r: Option<real>)
    ensures r.Some? <==> acc.Some? && Folds.All(xs, Valued)
    ensures r.Some? ==> r.value == acc.value + Folds.Sum(xs, ValorLote)
    decreases |xs|
  {
    if |xs| == 0 then acc
    else
      assert xs == [xs[0]] + xs[1..];
      Folds.AllConcat([xs[0]], xs[1..], Valued);
      ReduceLotes(xs[1..], Plus(acc, xs[0].valor_total_lote))
  }

  /** The dashboard's test for money still to receive: the stored status is
      not exactly "CONCLUIDO". */
  predicate IsReceivable(s: Servico)
    ensures IsReceivable(s) <==> !IsConcluded(s)
    ensures s.status == "" || s.status == LegacyStatusString(Concluido) ==> IsReceivable(s)
  {
    s.status != StatusString(Concluido)
  }

  predicate IsConcluded(s: Servico) {
    s.status == StatusString(Concluido)
  }

  /** `totalAReceber`: filter, then a left fold from 0. It is `NaN`
      (`None`) exactly when an order still to receive has no lot value;
      otherwise it is the sum of their lot values. */
  function TotalAReceber(servicos: seq<Servico>): (r: Option<real>)
    ensures r.None? <==> exists i :: 0 <= i < |servicos| && IsReceivable(servicos[i]) && !Valued(servicos[i])
    ensures r.Some? ==> r.value == Folds.Sum(Folds.Filter(servicos, IsReceivable), ValorLote)
  {
    Folds.AllFilter(servicos, IsReceivable, Valued);
    ReduceLotes(Folds.Filter(servicos, IsReceivable), Some(0.0))
  }

  /** `producaoTotal`: a left fold over every order, `NaN` exactly when one
      of them has no lot value. */
  function ProducaoTotal(servicos: seq<Servico>): (r: Option<real>)
    ensures r.None? <==> exists i :: 0 <= i < |servicos| && !Valued(servicos[i])
    ensures r.Some? ==> r.value == Folds.Sum(servicos, ValorLote)
  {
    ReduceLotes(servicos, Some(0.0))
  }

  /** Total production is what is still to receive plus what is concluded:
      the sum over the concluded orders read by the same fold. */
  lemma TotalsPartition(servicos: seq<Servico>)
    ensures ProducaoTotal(servicos)
      == Plus(TotalAReceber(servicos), ReduceLotes(Folds.Filter(servicos, IsConcluded), Some(0.0)))
  {
    TotalsDefinedTogether(servicos);
    if ProducaoTotal(servicos).Some? {
      TotalsAddUp(servicos);
    }
    PlusOf(ProducaoTotal(servicos), TotalAReceber(servicos), ReduceLotes(Folds.Filter(servicos, IsConcluded), Some(0.0)));
  }

  /** When production is a number, it is the sum of the two parts. */
  lemma TotalsAddUp(servicos: seq<Servico>)
    requires ProducaoTotal(servicos).Some?
    ensures TotalAReceber(servicos).Some? && ReduceLotes(Folds.Filter(servicos, IsConcluded), Some(0.0)).Some?
    ensures ProducaoTotal(servicos).value
      == TotalAReceber(servicos).value + ReduceLotes(Folds.Filter(servicos, IsConcluded), Some(0.0)).value
  {
    TotalsDefinedTogether(servicos);
    Folds.SumPartition(servicos, IsReceivable, IsConcluded, ValorLote);
  }

  lemma PlusOf(p: Option<real>, r: Option<real>, c: Option<real>)
    requires p.Some? <==> r.Some? && c.Some?
    requires p.Some? ==> p.value == r.value + c.value
    ensures p == Plus(r, c)
  {
  }

  /** Production is a number exactly when both parts are. */
  lemma TotalsDefinedTogether(servicos: seq<Servico>)
    ensures ProducaoTotal(servicos).Some?
      <==> TotalAReceber(servicos).Some? && ReduceLotes(Folds.Filter(servicos, IsConcluded), Some(0.0)).Some?
  {
    Folds.AllPartition(servicos, IsReceivable, IsConcluded, Valued);
    Folds.AllFilter(servicos, IsReceivable, Valued);
  }

  lemma TotalsOfEmpty()
    ensures TotalAReceber([]) == Some(0.0) && ProducaoTotal([]) == Some(0.0)
  {
  }

  /** One order without a lot value makes total production `NaN`, and the
      receivable figure too unless that order is concluded. */
  lemma MissingLotValueIsNaN(before: seq<Servico>, s: Servico, after: seq<Servico>)
    requires s.valor_total_lote.None?
    ensures ProducaoTotal(before + [s] + after).None?
    ensures TotalAReceber(before + [s] + after).None? <==>
      IsReceivable(s) || TotalAReceber(before).None? || TotalAReceber(after).None?
  {
    var xs := before + [s] + after;
    assert xs[|before|] == s;
    Folds.AllFilter(before, IsReceivable, Valued);
    Folds.AllFilter(after, IsReceivable, Valued);
    Folds.AllFilter(xs, IsReceivable, Valued);
    Folds.AllFilterSplice(before, s, after, IsReceivable, Valued);
  }

  /** With no negative lot value, the receivable figure never exceeds total
      production, and it is a number whenever production is. */
  lemma ReceivableAtMostProduction(servicos: seq<Servico>)
    requires forall i :: 0 <= i < |servicos| ==> ValorLote(servicos[i]) >= 0.0
    ensures ProducaoTotal(servicos).Some? ==>
      TotalAReceber(servicos).Some? && 0.0 <= TotalAReceber(servicos).value <= ProducaoTotal(servicos).value
  {
    var done := Folds.Filter(servicos, IsConcluded);
    var open := Folds.Filter(servicos, IsReceivable);
    assert forall i :: 0 <= i < |done| ==> ValorLote(done[i]) >= 0.0 by {
      forall i | 0 <= i < |done|
        ensures ValorLote(done[i]) >= 0.0
      {
        var k :| 0 <= k < |servicos| && servicos[k] == done[i];
      }
    }
    assert forall i :: 0 <= i < |open| ==> ValorLote(open[i]) >= 0.0 by {
      forall i | 0 <= i < |open|
        ensures ValorLote(open[i]) >= 0.0
      {
        var k :| 0 <= k < |servicos| && servicos[k] == open[i];
      }
    }
    Folds.SumNonNegative(done, ValorLote);
    Folds.SumNonNegative(open, ValorLote);
    TotalsPartition(servicos);
  }

  /** An order concluded under the earlier schema ("Entregue/Faturado") is
      still counted as receivable, as is one without a status. */
  lemma LegacyConcludedIsReceivable(servicos: seq<Servico>, s: Servico)
    requires s.status == LegacyStatusString(Concluido) || s.status == ""
    ensures TotalAReceber(servicos + [s]) == Plus(TotalAReceber(servicos), s.valor_total_lote)
  {
    assert IsReceivable(s);
    ReceivableSplice(servicos, s, []);
    assert servicos + [s] + [] == servicos + [s];
    assert TotalAReceber([]) == Some(0.0);
    PlusZero(Plus(TotalAReceber(servicos), s.valor_total_lote));
  }

  lemma PlusZero(a: Option<real>)
    ensures Plus(a, Some(0.0)) == a
  {
  }

  /** Replacing one term of a three-term `Plus` by 0 takes that term off a
      defined total; an undefined term makes the total undefined. */
  lemma PlusDropMiddle(a: Option<real>, v: Option<real>, b: Option<real>)
    ensures Plus(Plus(a, v), b).Some? ==>
      Plus(Plus(a, Some(0.0)), b) == Some(Plus(Plus(a, v), b).value - v.GetOr(0.0))
    ensures v.None? ==> Plus(Plus(a, v), b) == None
  {
  }

  /** Concluding an order takes its value off the receivable figure and
      leaves total production as it was; concluding an order without a lot
      value can turn a `NaN` receivable figure back into a number. */
  lemma ConcludingMovesValue(before: seq<Servico>, s: Servico, after: seq<Servico>, now: Timestamp)
    requires IsReceivable(s)
    ensures var done := ApplyStatusUpdate(s, StatusPayload(Concluido, now));
      && ProducaoTotal(before + [done] + after) == ProducaoTotal(before + [s] + after)
      && (TotalAReceber(before + [s] + after).Some? ==>
            TotalAReceber(before + [done] + after) == Some(TotalAReceber(before + [s] + after).value - ValorLote(s)))
      && (s.valor_total_lote.None? ==> TotalAReceber(before + [s] + after) == None)
  {
    var done := ApplyStatusUpdate(s, StatusPayload(Concluido, now));
    assert !IsReceivable(done) && done.valor_total_lote == s.valor_total_lote;
    ProductionIgnoresStatus(before, s, done, after);
    ReceivableSplice(before, done, after);
    ReceivableSplice(before, s, after);
    PlusDropMiddle(TotalAReceber(before), s.valor_total_lote, TotalAReceber(after));
  }

  /** Total production sees only lot values, never the status. */
  lemma ProductionIgnoresStatus(before: seq<Servico>, s: Servico, t: Servico, after: seq<Servico>)
    requires t.valor_total_lote == s.valor_total_lote
    ensures ProducaoTotal(before + [t] + after) == ProducaoTotal(before + [s] + after)
  {
    Folds.SumSplice(before, t, after, ValorLote);
    Folds.SumSplice(before, s, after, ValorLote);
    Folds.AllSplice(before, t, after, Valued);
    Folds.AllSplice(before, s, after, Valued);
  }

  /** The receivable figure over a list with one order picked out: the
      rest's figures plus that order's value when it is receivable. */
  lemma ReceivableSplice(before: seq<Servico>, s: Servico, after: seq<Servico>)
    ensures TotalAReceber(before + [s] + after)
      == Plus(Plus(TotalAReceber(before), if IsReceivable(s) then s.valor_total_lote else Some(0.0)), TotalAReceber(after))
  {
    var mid := if IsReceivable(s) then s.valor_total_lote else Some(0.0);
    ReceivableSpliceDefined(before, s, after);
    if TotalAReceber(before + [s] + after).Some? {
      Folds.SumFilterSplice(before, s, after, IsReceivable, ValorLote);
    }
    PlusOf3(TotalAReceber(before + [s] + after), TotalAReceber(before), mid, TotalAReceber(after));
  }

  /** The receivable figure of a spliced list is a number exactly when the
      figures of both sides are, and the picked order is valued or not
      receivable. */
  lemma ReceivableSpliceDefined(before: seq<Servico>, s: Servico, after: seq<Servico>)
    ensures TotalAReceber(before + [s] + after).Some?
      <==> TotalAReceber(before).Some? && (IsReceivable(s) ==> Valued(s)) && TotalAReceber(after).Some?
  {
    Folds.AllFilterSplice(before, s, after, IsReceivable, Valued);
    Folds.AllFilter(before + [s] + after, IsReceivable, Valued);
    Folds.AllFilter(before, IsReceivable, Valued);
    Folds.AllFilter(after, IsReceivable, Valued);
  }

  lemma PlusOf3(p: Option<real>, a: Option<real>, m: Option<real>, b: Option<real>)
    requires p.Some? <==> a.Some? && m.Some? && b.Some?
    requires p.Some? ==> p.value == a.value + m.value + b.value
    ensures p == Plus(Plus(a, m), b)
  {
  }

  /** An order with the given value and status; every other field empty. */
  function SampleServico(valor: Option<real>, status: string): Servico {
    Servico(None, "", None, "", None, None, None, 0, 0.0, valor, 0, None, None, None, None, None, status, None)
  }

  /** A pending order of 100 and a concluded one of 200: 100 to receive out
      of 300 produced. */
  lemma DashboardExample()
    ensures TotalAReceber([SampleServico(Some(100.0), "PENDENTE"), SampleServico(Some(200.0), "CONCLUIDO")]) == Some(100.0)
    ensures ProducaoTotal([SampleServico(Some(100.0), "PENDENTE"), SampleServico(Some(200.0), "CONCLUIDO")]) == Some(300.0)
  {
    var xs := [SampleServico(Some(100.0), "PENDENTE"), SampleServico(Some(200.0), "CONCLUIDO")];
    assert xs[1..] == [SampleServico(Some(200.0), "CONCLUIDO")];
    assert Folds.Filter(xs, IsReceivable) == [SampleServico(Some(100.0), "PENDENTE")];
  }
}
