/** The helper-payment form: the required-field check, the decimal-comma
    reading of the amount, the record handed to `addPagamento`, and what the
    three text fields hold after a submission. */
module PagamentoForm {
  import opened Options
  import opened Types
  import Numbers
  import DateUtils
  import UsePagamentos

  /** The form's three text fields: who worked, the "YYYY-MM-DD" work date
      and the amount as typed. */
  datatype PagamentoFields = PagamentoFields(nomeAjudante: string, dataTrabalho: string, valorPago: string)

  const EmptyFields := PagamentoFields("", "", "")

  /** The guard of `handleSubmit`: one of the three fields is empty. */
  predicate MissingRequired(f: PagamentoFields): (missing: bool)
    ensures missing <==> "" in [f.nomeAjudante, f.dataTrabalho, f.valorPago]
  {
    f.nomeAjudante == "" || f.dataTrabalho == "" || f.valorPago == ""
  }

  /** `valorNum`: the decimal-comma reading of the amount, 0 when it cannot
      be read. */
  function ValorNum(f: PagamentoFields): (v: real)
    ensures Numbers.NoDigit(f.valorPago) ==> v == 0.0
    ensures Numbers.AllDigits(f.valorPago) && |f.valorPago| > 0 ==> v == Numbers.DigitsValue(f.valorPago) as real
  {
    assert Numbers.NoDigit(f.valorPago) ==> Numbers.ParseDecimalComma(f.valorPago) == 0.0 by {
      if Numbers.NoDigit(f.valorPago) {
        Numbers.DecimalCommaNoDigit(f.valorPago);
      }
    }
    assert Numbers.AllDigits(f.valorPago) && |f.valorPago| > 0 ==>
      Numbers.ParseDecimalComma(f.valorPago) == Numbers.DigitsValue(f.valorPago) as real by {
      if Numbers.AllDigits(f.valorPago) && |f.valorPago| > 0 {
        Numbers.DecimalCommaWhole(f.valorPago);
      }
    }
    Numbers.ParseDecimalComma(f.valorPago)
  }

  /** The record handed to `addPagamento`: the name as typed, the work date
      at noon, the amount read. It carries no status. */
  function Record(f: PagamentoFields): (n: NovoPagamento)
    ensures n.nome_ajudante == f.nomeAjudante && n.valor_pago == ValorNum(f)
    ensures n.data_trabalho == DateUtils.ParseDateToNoon(f.dataTrabalho)
  {
    NovoPagamento(f.nomeAjudante, DateUtils.ParseDateToNoon(f.dataTrabalho), ValorNum(f))
  }

  /** What one submission does: the record it tries to write (None when the
      guard rejects it, so nothing is written) and the fields afterwards. */
  datatype Submission = Submission(attempted: Option<NovoPagamento>, fields: PagamentoFields)

  /** `handleSubmit`. `writeOk` says whether the store accepted the write;
      the fields are cleared only then, and kept as typed on a rejection or a
      failed write. */
  function HandleSubmit(f: PagamentoFields, writeOk: bool): (r: Submission)
    ensures r.attempted.None? <==> MissingRequired(f)
    ensures r.attempted.Some? ==> r.attempted.value == Record(f)
    ensures r.fields == EmptyFields <==> (r.attempted.Some? && writeOk) || f == EmptyFields
    ensures r.fields != EmptyFields ==> r.fields == f
  {
    if MissingRequired(f) then Submission(None, f)
    else if writeOk then Submission(Some(Record(f)), EmptyFields)
    else Submission(Some(Record(f)), f)
  }

  /** After a successful save the cleared form rejects an immediate second
      submission, so one click writes one payment. */
  lemma SavedFormRejectsResubmit(f: PagamentoFields, writeOk: bool)
    requires !MissingRequired(f)
    ensures HandleSubmit(HandleSubmit(f, true).fields, writeOk).attempted.None?
  {
  }

  /** After a failed write the fields are still there, and submitting again
      tries to write the very same record. */
  lemma FailedSaveCanBeRetried(f: PagamentoFields, writeOk: bool)
    ensures HandleSubmit(HandleSubmit(f, false).fields, writeOk).attempted == HandleSubmit(f, false).attempted
  {
  }

  /** An amount without any digit ("abc") passes the guard and is saved as 0:
      the amount is never checked. */
  lemma UnreadableAmountSavedAsZero(f: PagamentoFields)
    requires f.nomeAjudante != "" && f.dataTrabalho != "" && f.valorPago != ""
    requires Numbers.NoDigit(f.valorPago)
    ensures HandleSubmit(f, true).attempted.Some?
    ensures HandleSubmit(f, true).attempted.value.valor_pago == 0.0
  {
    Numbers.DecimalCommaNoDigit(f.valorPago);
  }

  /** A negative amount ("-50") is accepted and saved as typed. */
  lemma NegativeAmountAccepted(f: PagamentoFields, digits: string)
    requires f.nomeAjudante != "" && f.dataTrabalho != ""
    requires Numbers.AllDigits(digits) && |digits| > 0 && f.valorPago == "-" + digits
    ensures HandleSubmit(f, true).attempted.Some?
    ensures HandleSubmit(f, true).attempted.value.valor_pago == -(Numbers.DigitsValue(digits) as real)
  {
    Numbers.DecimalCommaNegative(digits);
  }

  /** The stored work date is never "the current time": the guard has
      already ruled out the empty date string. A well-formed date is stored
      at noon of the day as written. */
  lemma SavedDateIsTheTypedDay(f: PagamentoFields)
    requires !MissingRequired(f)
    ensures HandleSubmit(f, true).attempted.value.data_trabalho != DateUtils.CurrentTime
    ensures DateUtils.WellFormed(f.dataTrabalho) && DateUtils.YearDigits(f.dataTrabalho) >= 100 ==>
      HandleSubmit(f, true).attempted.value.data_trabalho == DateUtils.At(DateUtils.LocalDateTime(
        DateUtils.YearDigits(f.dataTrabalho), DateUtils.MonthDigits(f.dataTrabalho) - 1,
        DateUtils.DayDigits(f.dataTrabalho), 12, 0, 0, 0))
  {
    DateUtils.EmptyIsCurrentTime(f.dataTrabalho);
    if DateUtils.WellFormed(f.dataTrabalho) && DateUtils.YearDigits(f.dataTrabalho) >= 100 {
      DateUtils.NoonComponents(f.dataTrabalho);
    }
  }

  /** The stored document is the form's record plus the store's id, with no
      status; reading its caller part back gives the record. */
  lemma StoredPaymentHasNoStatus(f: PagamentoFields)
    requires !MissingRequired(f)
    ensures var doc := UsePagamentos.AddPagamento(HandleSubmit(f, true).attempted.value);
      && doc.status == None
      && doc.nome_ajudante == f.nomeAjudante && doc.valor_pago == ValorNum(f)
      && UsePagamentos.CallerFields(doc) == Record(f)
  {
    UsePagamentos.AddPagamentoRoundTrip(Record(f), UsePagamentos.AddPagamento(Record(f)));
  }

  /** "12,50" is saved as 12.5. */
  lemma AmountExample(f: PagamentoFields)
    requires f.nomeAjudante != "" && f.dataTrabalho != "" && f.valorPago == "12,50"
    ensures HandleSubmit(f, true).attempted == Some(NovoPagamento(f.nomeAjudante,
      DateUtils.ParseDateToNoon(f.dataTrabalho), 12.5))
  {
    Numbers.DecimalCommaExample();
  }
}
