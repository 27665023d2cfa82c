/** The service list: the badge shown for a stored status, the status a
    click on the badge writes, the size line of each card, and which of the
    three views (loading, empty, cards) is shown. */
module ServicosList {
  import opened Options
  import opened Types
  import Strings
  import SizeGrid
  import UseServicos

  /** Label and style of a status badge. */
  datatype BadgeConfig = BadgeConfig(text: string, className: string)

  const PendenteBadge := BadgeConfig("Pendente", "bg-amber-100 text-amber-800 border-amber-200")
  const EmAndamentoBadge := BadgeConfig("Em Produção", "bg-blue-100 text-blue-800 border-blue-200")
  const ConcluidoBadge := BadgeConfig("Entregue", "bg-emerald-100 text-emerald-800 border-emerald-200")

  /** The badge for a status the list does not know. */
  const UnknownStatusConfig := BadgeConfig("Desconhecido", "bg-gray-100 text-gray-800 border-gray-200")

  /** `statusConfig`: both generations of status strings, each legacy label
      with the badge of its canonical counterpart. */
  const StatusConfig: map<string, BadgeConfig> := map[
    "PENDENTE" := PendenteBadge,
    "EM_ANDAMENTO" := EmAndamentoBadge,
    "CONCLUIDO" := ConcluidoBadge,
    "Pendente" := PendenteBadge,
    "Em Produção" := EmAndamentoBadge,
    "Entregue/Faturado" := ConcluidoBadge]

  /** The badge of each canonical state. */
  function CanonicalBadge(st: StatusServico): BadgeConfig {
    match st
    case Pendente => PendenteBadge
    case EmAndamento => EmAndamentoBadge
    case Concluido => ConcluidoBadge
  }

  /** `servico.status || 'PENDENTE'`. */
  function SafeStatus(status: string): (key: string)
    ensures key != ""
    ensures status != "" ==> key == status
  {
    if status == "" then StatusString(Pendente) else status
  }

  /** `statusConfig[safeStatus] || unknownStatusConfig`, looking up the
      object's own keys only. */
  function StatusBadge(status: string): (b: BadgeConfig)
    ensures b == UnknownStatusConfig <==> SafeStatus(status) !in StatusConfig
  {
    var key := SafeStatus(status);
    if key in StatusConfig then StatusConfig[key] else UnknownStatusConfig
  }

  /** Each legacy label is shown exactly like its canonical counterpart, and
      both like the canonical badge of the state. */
  lemma LegacyKeysShareBadge(st: StatusServico)
    ensures StatusBadge(LegacyStatusString(st)) == StatusBadge(StatusString(st)) == CanonicalBadge(st)
  {
  }

  /** Every string other than the six keys (and the empty string, which
      reads as "PENDENTE") is shown as "Desconhecido". */
  lemma UnknownKeysAreDesconhecido(status: string)
    ensures StatusBadge(status).text == "Desconhecido" <==>
      status != "" && (forall st :: status != StatusString(st) && status != LegacyStatusString(st))
  {
    if status == StatusString(Pendente) || status == LegacyStatusString(Pendente) {
      assert StatusBadge(status) == PendenteBadge;
    } else if status == StatusString(EmAndamento) || status == LegacyStatusString(EmAndamento) {
      assert StatusBadge(status) == EmAndamentoBadge;
    } else if status == StatusString(Concluido) || status == LegacyStatusString(Concluido) {
      assert StatusBadge(status) == ConcluidoBadge;
    } else if status != "" {
      assert status !in StatusConfig;
      forall st: StatusServico
        ensures status != StatusString(st) && status != LegacyStatusString(st)
      {
      }
    }
  }

  /** The list's reading of a stored status: legacy labels map to their
      canonical state, everything else (including "Pendente", missing and
      unknown text) to PENDENTE. */
  function NormalizeStatus(current: string): (st: StatusServico)
    ensures st == EmAndamento <==> current == "Em Produção" || current == "EM_ANDAMENTO"
    ensures st == Concluido <==> current == "Entregue/Faturado" || current == "CONCLUIDO"
  {
    if current == "Em Produção" || current == "EM_ANDAMENTO" then EmAndamento
    else if current == "Entregue/Faturado" || current == "CONCLUIDO" then Concluido
    else Pendente
  }

  /** Both strings of a state read back as that state. */
  lemma NormalizeRoundTrip(st: StatusServico)
    ensures NormalizeStatus(StatusString(st)) == st
    ensures NormalizeStatus(LegacyStatusString(st)) == st
  {
  }

  /** For every key the list knows, the badge shows the state the cycle
      starts from. */
  lemma BadgeAgreesWithNormalize(status: string)
    requires SafeStatus(status) in StatusConfig
    ensures StatusBadge(status) == CanonicalBadge(NormalizeStatus(SafeStatus(status)))
  {
  }

  /** `statusOptions`. */
  const StatusOptions: seq<StatusServico> := [Pendente, EmAndamento, Concluido]

  /** The reference successor: one step forward, CONCLUIDO back to PENDENTE. */
  function Next(st: StatusServico): StatusServico {
    match st
    case Pendente => EmAndamento
    case EmAndamento => Concluido
    case Concluido => Pendente
  }

  /** Where each state stands in `statusOptions`. */
  lemma StatusOptionsIndex(st: StatusServico)
    ensures Strings.IndexOf(StatusOptions, st) == match st
      case Pendente => 0 case EmAndamento => 1 case Concluido => 2
  {
    assert StatusOptions[0] == Pendente && StatusOptions[1] == EmAndamento && StatusOptions[2] == Concluido;
    assert st in StatusOptions;
    assert StatusOptions[..1] == [Pendente];
    assert StatusOptions[..2] == [Pendente, EmAndamento];
  }

  /** `cycleStatus`: normalise, find the position in `statusOptions`, and
      take the next one, wrapping around; the result is the successor of
      the normalised status. */
  function CycleStatus(current: string): (next: StatusServico)
    ensures next == Next(NormalizeStatus(current))
  {
    var st := NormalizeStatus(current);
    StatusOptionsIndex(st);
    var i := Strings.IndexOf(StatusOptions, st);
    StatusOptions[(i + 1) % |StatusOptions|]
  }

  /** What a click writes is always a canonical value, never a legacy
      label. */
  lemma CycleWritesCanonical(current: string)
    ensures StatusString(CycleStatus(current)) in ["PENDENTE", "EM_ANDAMENTO", "CONCLUIDO"]
    ensures forall st :: StatusString(CycleStatus(current)) != LegacyStatusString(st)
  {
    forall st: StatusServico
      ensures StatusString(CycleStatus(current)) != LegacyStatusString(st)
    {
      StatusStringsDistinct(CycleStatus(current), st);
    }
  }

  /** The status string stored after one click on a badge showing
      `current`: the canonical string of the next state. */
  function Click(current: string): (written: string)
    ensures written == StatusString(Next(NormalizeStatus(current)))
    ensures written in ["PENDENTE", "EM_ANDAMENTO", "CONCLUIDO"]
  {
    StatusString(CycleStatus(current))
  }

  /** Three clicks come back to where the list started: the canonical
      status itself, or the canonical value of a legacy or unknown one. */
  lemma ThreeClicks(current: string)
    ensures Click(Click(Click(current))) == StatusString(NormalizeStatus(current))
    ensures current in ["PENDENTE", "EM_ANDAMENTO", "CONCLUIDO"] ==> Click(Click(Click(current))) == current
  {
    var st := NormalizeStatus(current);
    var c1 := Click(current);
    assert c1 == StatusString(Next(st));
    NormalizeRoundTrip(Next(st));
    var c2 := Click(c1);
    assert c2 == StatusString(Next(Next(st)));
    NormalizeRoundTrip(Next(Next(st)));
    assert Click(c2) == StatusString(st) by {
      assert Next(Next(Next(st))) == st;
    }
    if current in ["PENDENTE", "EM_ANDAMENTO", "CONCLUIDO"] {
      var x := if current == "PENDENTE" then Pendente else if current == "EM_ANDAMENTO" then EmAndamento else Concluido;
      assert current == StatusString(x);
      NormalizeRoundTrip(x);
    }
  }

  /** A missing status shows and cycles exactly as PENDENTE. */
  lemma MissingStatusIsPendente()
    ensures StatusBadge("") == StatusBadge(StatusString(Pendente)) == PendenteBadge
    ensures CycleStatus(SafeStatus("")) == CycleStatus(StatusString(Pendente)) == EmAndamento
  {
  }

  /** The write a click on a card's badge triggers: only for a card with a
      (truthy) id, to that id, with the payload for the next status. */
  function OnBadgeClick(s: Servico, now: Timestamp): (w: Option<(string, UseServicos.StatusUpdate)>)
    ensures w.Some? <==> Truthy(s.id)
  {
    if Truthy(s.id) then
      Some((s.id.value, UseServicos.StatusPayload(CycleStatus(SafeStatus(s.status)), now)))
    else None
  }

  /** After the click's write, the order holds the successor of what its
      badge showed, with the matching timestamp. */
  lemma ClickAdvancesOrder(s: Servico, now: Timestamp)
    requires Truthy(s.id)
    ensures var r := UseServicos.ApplyStatusUpdate(s, OnBadgeClick(s, now).value.1);
      && OnBadgeClick(s, now).value.0 == s.id.value
      && r.status == StatusString(Next(NormalizeStatus(SafeStatus(s.status))))
      && (r.status == StatusString(EmAndamento) ==> r.data_inicio == Some(now))
      && (r.status == StatusString(Concluido) ==> r.data_conclusao == Some(now))
  {
    StatusStringsDistinct(Next(NormalizeStatus(SafeStatus(s.status))), EmAndamento);
    StatusStringsDistinct(Next(NormalizeStatus(SafeStatus(s.status))), Concluido);
  }

  /** `servico.tamanhos` as a condition: a grid object is truthy even when
      empty, a text left there by the earlier schema unless it is empty. */
  predicate TamanhosTruthy(t: Option<Tamanhos>) {
    t.Some? && (t.value.Grid? || t.value.text != "")
  }

  /** A stored `tamanhos` as the value `formatTamanhos` receives. */
  function AsTamanhosValue(t: Tamanhos): SizeGrid.TamanhosValue {
    match t
    case Grid(g) => SizeGrid.SizeTable(g)
    case Text(x) => SizeGrid.SizeText(x)
  }

  /** `servico.tamanhos || servico.detalhe_tamanhos`: the stored field
      whenever it is truthy, otherwise the description. `formatTamanhos`
      returns null exactly when neither is truthy; a grid with no positive
      quantity is truthy but formats to "", so no line is shown for it
      (`GridTakesPrecedence`). */
  function TamanhosSource(s: Servico): (v: SizeGrid.TamanhosValue)
    ensures TamanhosTruthy(s.tamanhos) ==> v == AsTamanhosValue(s.tamanhos.value)
    ensures !TamanhosTruthy(s.tamanhos) && s.detalhe_tamanhos.Some? ==> v == SizeGrid.SizeText(s.detalhe_tamanhos.value)
    ensures SizeGrid.FormatTamanhos(v).None? <==> !TamanhosTruthy(s.tamanhos) && !Truthy(s.detalhe_tamanhos)
  {
    if TamanhosTruthy(s.tamanhos) then AsTamanhosValue(s.tamanhos.value)
    else if s.detalhe_tamanhos.Some? then SizeGrid.SizeText(s.detalhe_tamanhos.value)
    else SizeGrid.NoSizes
  }

  /** The size line of a card: shown only when the formatted text is
      non-empty. */
  function SizeLine(s: Servico): (line: Option<string>)
    ensures line.Some? ==> line.value != ""
    ensures line.Some? ==> line == SizeGrid.FormatTamanhos(TamanhosSource(s))
    ensures SizeGrid.FormatTamanhos(TamanhosSource(s)).Some? && SizeGrid.FormatTamanhos(TamanhosSource(s)).value != "" ==>
      line == SizeGrid.FormatTamanhos(TamanhosSource(s))
  {
    var t := SizeGrid.FormatTamanhos(TamanhosSource(s));
    if t.Some? && t.value != "" then t else None
  }

  /** When the grid is present the free-text description is never
      consulted; in particular a grid with no positive entry hides it. */
  lemma GridTakesPrecedence(s: Servico, d: Option<string>)
    requires s.tamanhos.Some? && s.tamanhos.value.Grid?
    ensures SizeLine(s.(detalhe_tamanhos := d)) == SizeLine(s)
    ensures s.tamanhos.value.grid == [] ==> SizeLine(s) == None
  {
    if s.tamanhos.value.grid == [] {
      SizeGrid.FormatGridContents([]);
      assert SizeGrid.ShownEntries([]) == [] by {
        assert |multiset(SizeGrid.ShownEntries([]))| == 0;
      }
    }
  }

  /** A text stored in `tamanhos` by the earlier schema is shown as
      written, whatever the description says. */
  lemma LegacyTextInTamanhos(s: Servico, text: string)
    requires s.tamanhos == Some(Text(text)) && text != ""
    ensures SizeLine(s) == Some(text)
  {
  }

  /** Without a grid or text in `tamanhos`, the description is shown as
      written, unless empty. */
  lemma TextWithoutGrid(s: Servico)
    requires !TamanhosTruthy(s.tamanhos)
    ensures SizeLine(s) == if s.detalhe_tamanhos.Some? && s.detalhe_tamanhos.value != "" then s.detalhe_tamanhos else None
  {
  }

  /** What one card shows from the business data. */
  datatype ServicoCard = ServicoCard(badge: BadgeConfig, sizes: Option<string>, valor: real)

  datatype ServicosView = Skeleton | NoServicos | Cards(cards: seq<ServicoCard>)

  /** A card: its badge, its size line, and `servico.valor_total_lote || 0`.
      The badge label is the source's wherever the status is not an
      inherited name; the size line is never empty; an order without a lot
      value shows 0. */
  function Card(s: Servico): (c: ServicoCard)
    ensures SafeStatus(s.status) !in InheritedKeys ==> BadgeLabelAsWritten(s.status) == Some(c.badge.text)
    ensures c.sizes.Some? ==> c.sizes.value != ""
    ensures s.valor_total_lote.None? ==> c.valor == 0.0
    ensures s.valor_total_lote.Some? ==> c.valor == s.valor_total_lote.value
  {
    ServicoCard(StatusBadge(s.status), SizeLine(s), UseServicos.ValorLote(s))
  }

  function CardsOf(servicos: seq<Servico>): (cards: seq<ServicoCard>)
    ensures |cards| == |servicos|
    ensures forall i :: 0 <= i < |servicos| ==> cards[i] == Card(servicos[i])
    decreases |servicos|
  {
    if |servicos| == 0 then [] else [Card(servicos[0])] + CardsOf(servicos[1..])
  }

  /** The list's three views: the skeleton while loading, the empty state
      for an empty list, otherwise one card per order, in list order. */
  function ServicosListView(loading: bool, servicos: seq<Servico>): (v: ServicosView)
    ensures v.Skeleton? <==> loading
    ensures v.NoServicos? <==> !loading && |servicos| == 0
    ensures v.Cards? ==> |v.cards| == |servicos| && v.cards == CardsOf(servicos)
  {
    if loading then Skeleton
    else if |servicos| == 0 then NoServicos
    else Cards(CardsOf(servicos))
  }

  /** An order without a lot value shows 0 on its card, while the same
      order makes the dashboard's production total `NaN`. */
  lemma CardShowsZeroWhereTotalsAreNaN(before: seq<Servico>, s: Servico, after: seq<Servico>)
    requires s.valor_total_lote.None?
    ensures CardsOf(before + [s] + after)[|before|].valor == 0.0
    ensures UseServicos.ProducaoTotal(before + [s] + after).None?
  {
    assert (before + [s] + after)[|before|] == s;
    UseServicos.MissingLotValueIsNaN(before, s, after);
  }

  /** On a stored status of one of Object.prototype's member names, the
      lookup as written finds that inherited member. */
  const InheritedKeys: set<string> := {
    "constructor", "hasOwnProperty", "isPrototypeOf", "propertyIsEnumerable",
    "toString", "toLocaleString", "valueOf", "__proto__",
    "__defineGetter__", "__defineSetter__", "__lookupGetter__", "__lookupSetter__"}

  /** `(statusConfig[safeStatus] || unknownStatusConfig).text` as the
      language evaluates it: an inherited member is truthy, so the fallback
      is skipped, and it has no `label` (`None` stands for `undefined`). */
  function BadgeLabelAsWritten(status: string): (text: Option<string>)
    ensures SafeStatus(status) in StatusConfig ==> text == Some(StatusBadge(status).text)
  {
    var key := SafeStatus(status);
    if key in StatusConfig then Some(StatusConfig[key].text)
    else if key in InheritedKeys then None
    else Some(UnknownStatusConfig.text)
  }

  /** A status "constructor" shows an empty badge instead of
      "Desconhecido"; the own-key lookup shows "Desconhecido". */
  lemma InheritedKeyShowsNoLabel()
    ensures BadgeLabelAsWritten("constructor") == None
    ensures StatusBadge("constructor").text == "Desconhecido"
  {
    assert "constructor" in InheritedKeys;
  }

  /** Outside the inherited names the two lookups agree. */
  lemma LookupsAgreeOtherwise(status: string)
    requires SafeStatus(status) !in InheritedKeys
    ensures BadgeLabelAsWritten(status) == Some(StatusBadge(status).text)
  {
  }

  /** A card's badge uses the corrected lookup. It shows the label the
      source shows for every status except the inherited names, where the
      card shows "Desconhecido" and the source shows no label. */
  lemma CardBadgeAgainstSource(s: Servico)
    ensures SafeStatus(s.status) !in InheritedKeys ==> BadgeLabelAsWritten(s.status) == Some(Card(s).badge.text)
    ensures SafeStatus(s.status) in InheritedKeys ==>
      BadgeLabelAsWritten(s.status) == None && Card(s).badge == UnknownStatusConfig
  {
    if SafeStatus(s.status) in InheritedKeys {
      assert SafeStatus(s.status) !in StatusConfig;
    }
  }
}
