/** The records of the store: service orders ("serviços") and helper
    payments ("pagamentos de ajudantes"), with the production status of an
    order. Optional fields (`?:` in the declarations) are `Option`s; an
    absent and a `null` value are both `None`. */
module Types {
  import opened Options
  import DateUtils

  /** `StatusServico`: the three canonical production states. */
  datatype StatusServico = Pendente | EmAndamento | Concluido

  /** The value stored for each state. */
  function StatusString(st: StatusServico): string {
    match st
    case Pendente => "PENDENTE"
    case EmAndamento => "EM_ANDAMENTO"
    case Concluido => "CONCLUIDO"
  }

  /** The label an earlier generation of the schema stored for the same
      state; documents written then still carry it. */
  function LegacyStatusString(st: StatusServico): string {
    match st
    case Pendente => "Pendente"
    case EmAndamento => "Em Produção"
    case Concluido => "Entregue/Faturado"
  }

  /** The six status strings are pairwise different: each names one state
      in one generation. */
  lemma StatusStringsDistinct(a: StatusServico, b: StatusServico)
    ensures StatusString(a) == StatusString(b) ==> a == b
    ensures LegacyStatusString(a) == LegacyStatusString(b) ==> a == b
    ensures StatusString(a) != LegacyStatusString(b)
  {
  }

  /** A clock reading, as `Timestamp.now()` returns it. */
  type Timestamp = int

  /** One entry of the size grid: a size label and the number of pieces. */
  datatype SizeEntry = SizeEntry(size: string, qty: int)

  /** The size grid `tamanhos` as `Object.entries` lists it: keys that look
      like array indices ("2", "10") first, in ascending numeric order, then
      the other keys in insertion order. A JavaScript object holds each
      size label at most once; the model does not rely on that, and its
      formatting properties hold of any list of entries, repeated labels
      included. */
  type SizeGrid = seq<SizeEntry>

  /** What a stored `tamanhos` field holds: the grid of the current schema,
      or the free text an earlier schema stored in the same field. */
  datatype Tamanhos = Grid(grid: SizeGrid) | Text(text: string)

  /** A service order as stored. `status` is the raw stored string: the
      declared type allows only the canonical values, but older documents
      carry legacy labels, and the empty string stands for a document
      without one (`undefined` and '' are both falsy and both differ from
      every label). `valor_total_lote` is `None` on a document written
      without one. */
  datatype Servico = Servico(
    id: Option<string>,
    fornecedor: string,
    cliente: Option<string>,
    tipo_peca: string,
    tipo_tecido: Option<string>,
    tamanhos: Option<Tamanhos>,
    detalhe_tamanhos: Option<string>,
    quantidade_total: int,
    valor_unitario: real,
    valor_total_lote: Option<real>,
    data_entrada: Timestamp,
    numero_op: Option<string>,
    data_chegada: Option<string>,
    data_inicio: Option<Timestamp>,
    data_conclusao: Option<Timestamp>,
    foto_op_url: Option<string>,
    status: string,
    observacoes: Option<string>)

  /** What a caller hands to `addServico`:
      `Omit<Servico, 'id' | 'data_entrada' | 'valor_total_lote'>`. */
  datatype NovoServico = NovoServico(
    fornecedor: string,
    cliente: Option<string>,
    tipo_peca: string,
    tipo_tecido: Option<string>,
    tamanhos: Option<Tamanhos>,
    detalhe_tamanhos: Option<string>,
    quantidade_total: int,
    valor_unitario: real,
    numero_op: Option<string>,
    data_chegada: Option<string>,
    data_inicio: Option<Timestamp>,
    data_conclusao: Option<Timestamp>,
    foto_op_url: Option<string>,
    status: string,
    observacoes: Option<string>)

  /** A helper payment as stored. The work date is the local date-time the
      form built (`Timestamp.fromDate` of it). `status` is not part of the
      declared record; the payment list reads it from documents that carry
      one. */
  datatype PagamentoAjudante = PagamentoAjudante(
    id: Option<string>,
    nome_ajudante: string,
    data_trabalho: DateUtils.ParsedDate,
    valor_pago: real,
    status: Option<string>)

  /** What a caller hands to `addPagamento`: `Omit<PagamentoAjudante, 'id'>`. */
  datatype NovoPagamento = NovoPagamento(
    nome_ajudante: string,
    data_trabalho: DateUtils.ParsedDate,
    valor_pago: real)

  /** A JavaScript string field used as a condition: `undefined` and '' are
      falsy. */
  predicate Truthy(s: Option<string>) {
    s.Some? && s.value != ""
  }
}
