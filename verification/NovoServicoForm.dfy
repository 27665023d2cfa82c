/** The new-service form: the quantity and unit price read from text, the
    total shown while typing, the required-field check on submit, the record
    handed to `addServico`, and when the submit button is locked. */
module NovoServicoForm {
  import opened Options
  import opened Types
  import Numbers
  import UseServicos

  /** The form's text fields. */
  datatype ServicoForm = ServicoForm(
    fornecedor: string,
    tipoPeca: string,
    detalheTamanhos: string,
    quantidade: string,
    valorUnitario: string)

  /** `quantidadeNum`: `parseInt(quantidade) || 0`. */
  function QuantidadeNum(f: ServicoForm): (q: int)
    ensures q != 0 ==> Numbers.ParseInt(f.quantidade) == Some(q)
    ensures Numbers.NoDigit(f.quantidade) ==> q == 0
    ensures Numbers.AllDigits(f.quantidade) && |f.quantidade| > 0 ==> q == Numbers.DigitsValue(f.quantidade)
  {
    assert Numbers.NoDigit(f.quantidade) ==> Numbers.ParseIntOrZero(f.quantidade) == 0 by {
      if Numbers.NoDigit(f.quantidade) {
        Numbers.ParseIntNoDigit(f.quantidade);
      }
    }
    Numbers.ParseIntOrZero(f.quantidade)
  }

  /** `valorNum`: the decimal-comma reading of the unit price, 0 when
      unreadable. */
  function ValorNum(f: ServicoForm): (v: real)
    ensures Numbers.NoDigit(f.valorUnitario) ==> v == 0.0
    ensures Numbers.AllDigits(f.valorUnitario) && |f.valorUnitario| > 0 ==>
      v == Numbers.DigitsValue(f.valorUnitario) as real
  {
    assert Numbers.NoDigit(f.valorUnitario) ==> Numbers.ParseDecimalComma(f.valorUnitario) == 0.0 by {
      if Numbers.NoDigit(f.valorUnitario) {
        Numbers.DecimalCommaNoDigit(f.valorUnitario);
      }
    }
    assert Numbers.AllDigits(f.valorUnitario) && |f.valorUnitario| > 0 ==>
      Numbers.ParseDecimalComma(f.valorUnitario) == Numbers.DigitsValue(f.valorUnitario) as real by {
      if Numbers.AllDigits(f.valorUnitario) && |f.valorUnitario| > 0 {
        Numbers.DecimalCommaWhole(f.valorUnitario);
      }
    }
    Numbers.ParseDecimalComma(f.valorUnitario)
  }

  /** `valorTotal`, the total the form shows: the lot value the order will
      be stored with. It is 0 exactly when the quantity or the unit price
      reads as 0, so an unreadable field locks the form. */
  function ValorTotal(f: ServicoForm): (t: real)
    ensures t == 0.0 <==> QuantidadeNum(f) == 0 || ValorNum(f) == 0.0
    ensures QuantidadeNum(f) > 0 && ValorNum(f) > 0.0 ==> t > 0.0
  {
    UseServicos.LoteTotal(QuantidadeNum(f), ValorNum(f))
  }

  /** The guard of `handleSubmit`: one of the four required fields is
      empty. The size description is not required. */
  predicate MissingRequired(f: ServicoForm): (missing: bool)
    ensures missing <==> "" in [f.fornecedor, f.tipoPeca, f.quantidade, f.valorUnitario]
  {
    f.fornecedor == "" || f.tipoPeca == "" || f.quantidade == "" || f.valorUnitario == ""
  }

  /** The record handed to `addServico`: the two readings, the size
      description as typed, and the legacy label "Pendente" as status. */
  function SubmittedRecord(f: ServicoForm): (n: NovoServico)
    ensures n.quantidade_total == QuantidadeNum(f) && n.valor_unitario == ValorNum(f)
    ensures n.status == LegacyStatusString(Pendente)
    ensures n.tamanhos == None && n.detalhe_tamanhos == Some(f.detalheTamanhos)
  {
    NovoServico(f.fornecedor, None, f.tipoPeca, None, None, Some(f.detalheTamanhos),
      QuantidadeNum(f), ValorNum(f), None, None, None, None, None, "Pendente", None)
  }

  datatype SubmitOutcome = Rejected | Submitted(record: NovoServico)

  /** `handleSubmit`: reject (a warning, no write) when a required field is
      empty; otherwise hand the record to `addServico`. */
  function HandleSubmit(f: ServicoForm): (o: SubmitOutcome)
    ensures o.Rejected? <==> MissingRequired(f)
  {
    if MissingRequired(f) then Rejected else Submitted(SubmittedRecord(f))
  }

  /** `disabled={loading || valorTotal === 0}`. */
  predicate SubmitDisabled(loading: bool, f: ServicoForm): (disabled: bool)
    ensures disabled <==> loading || QuantidadeNum(f) == 0 || ValorNum(f) == 0.0
  {
    loading || ValorTotal(f) == 0.0
  }

  /** The size description never decides whether a submission is
      rejected. */
  lemma SizesAreOptional(f: ServicoForm, d: string)
    ensures HandleSubmit(f.(detalheTamanhos := d)).Rejected? == HandleSubmit(f).Rejected?
  {
  }

  /** The stored order carries the total the form showed, and the status
      "PENDENTE" although the form sent "Pendente". */
  lemma StoredTotalMatchesShown(f: ServicoForm, now: Timestamp)
    requires !MissingRequired(f)
    ensures HandleSubmit(f).Submitted?
    ensures var doc := UseServicos.AddServico(HandleSubmit(f).record, now);
      && doc.valor_total_lote == Some(ValorTotal(f))
      && doc.quantidade_total == QuantidadeNum(f) && doc.valor_unitario == ValorNum(f)
      && doc.status == StatusString(Pendente) != HandleSubmit(f).record.status
  {
    StatusStringsDistinct(Pendente, Pendente);
  }

  /** Whenever the button lets a submission through, the stored total is
      not zero. */
  lemma EnabledSubmitStoresNonZero(f: ServicoForm, now: Timestamp)
    requires !SubmitDisabled(false, f) && !MissingRequired(f)
    ensures UseServicos.AddServico(HandleSubmit(f).record, now).valor_total_lote != Some(0.0)
  {
  }

  /** A quantity without digits ("abc") passes the required-field guard,
      reads as 0, and so locks the button instead. This is a property of
      the reading: the quantity field is a number input, which hands over
      "" rather than such text. `FractionalQuantityLocks` shows a value it
      does hand over. */
  lemma UnreadableQuantityLocks(f: ServicoForm, loading: bool)
    requires f.quantidade != "" && Numbers.NoDigit(f.quantidade)
    ensures QuantidadeNum(f) == 0 && ValorTotal(f) == 0.0
    ensures SubmitDisabled(loading, f)
    ensures MissingRequired(f) <==> f.fornecedor == "" || f.tipoPeca == "" || f.valorUnitario == ""
  {
    Numbers.ParseIntNoDigit(f.quantidade);
  }

  /** A fractional quantity such as "0.5", which the number input accepts,
      passes the guard but `parseInt` reads it as 0, so the button is
      locked. */
  lemma FractionalQuantityLocks(f: ServicoForm, loading: bool)
    requires f.quantidade == "0.5"
    ensures Numbers.ParseInt(f.quantidade) == Some(0)
    ensures QuantidadeNum(f) == 0 && ValorTotal(f) == 0.0
    ensures SubmitDisabled(loading, f)
    ensures MissingRequired(f) <==> f.fornecedor == "" || f.tipoPeca == "" || f.valorUnitario == ""
  {
    assert Numbers.ParseInt("0.5") == Some(0) by {
      assert Numbers.AllDigits("0") && Numbers.DigitsValue("0") == 0;
      assert "0.5" == "0" + ".5";
      Numbers.DigitRunOfPrefix("0", ".5");
      Numbers.ParseIntOfPrefix("0.5", "0");
    }
  }

  /** 10 pieces at "12,50" show and store a total of 125. */
  lemma TotalExample(f: ServicoForm)
    requires f.quantidade == "10" && f.valorUnitario == "12,50"
    ensures QuantidadeNum(f) == 10 && ValorNum(f) == 12.5 && ValorTotal(f) == 125.0
  {
    assert Numbers.ParseInt("10") == Some(10) by {
      assert Numbers.NatToString(10) == "10";
      Numbers.ParseIntReadsCount(10, "");
      assert Numbers.NatToString(10) + "" == "10";
    }
    Numbers.DecimalCommaExample();
  }
}
