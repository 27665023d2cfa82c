# Oficina de costura — order and payment logic in Dafny

This project models the business logic of a small garment-workshop app
(React front end, Firestore store). The logic sits between the UI markup
and the store calls. It covers:

- **Service orders (`servicos`).** `addServico` builds the stored record,
  with the lot value equal to quantity × unit price and the status forced
  to "PENDENTE". `updateServicoStatus` builds the status-update payload
  together with its timestamp. The dashboard totals "a receber" and
  "produção total" are folds over the loaded list; one order without a lot
  value turns a total into `NaN`.
- **The service list.**
  - The status badge lookup covers two generations of status strings:
    "PENDENTE"/"EM_ANDAMENTO"/"CONCLUIDO" and "Pendente"/"Em Produção"/"Entregue/Faturado".
  - A missing status counts as "PENDENTE".
  - The "cycle" click normalises the stored status and writes the next canonical one, wrapping from CONCLUIDO back to PENDENTE.
  - `formatTamanhos` filters, orders and joins the size grid, and shows text stored by the earlier schema as it is.
  - The grid is ordered by the source's comparator wherever that comparator is a consistent order on the shown sizes.
  - When `tamanhos` is falsy, the free-text size description is shown instead.
  - A card shows 0 for an order without a lot value.
- **Helper payments (`pagamentos_ajudantes`).**
  - `addPagamento` passes the record through unchanged.
  - `totalDespesas` is a fold over all payments.
  - The payment list reads the status: a missing one is "PENDENTE", and only "PAGO" counts as paid.
  - A `data` prop takes precedence over the hook's list.
  - The list has a skeleton state and an empty state.
- **The two forms.**
  - Required-field guards.
  - `parseInt(x) || 0` reads the quantity.
  - `parseFloat(x.replace(',', '.')) || 0` reads the money fields.
  - The new-service form locks submission while the total is zero.
  - The payment form clears its fields after a successful save.
- **Date helpers.** `parseDateToNoon`, `parseDateToStartOfDay` and
  `parseDateToEndOfDay` split "YYYY-MM-DD" into calendar components at a
  fixed time of day. An empty string means "now".

Modules follow the source files:

| module | models |
|---|---|
| `Types` | the records of `src/types/index.ts` |
| `UseServicos` | `src/hooks/useServicos.ts` |
| `UsePagamentos` | `src/hooks/usePagamentos.ts` |
| `ServicosList` | `src/components/lists/ServicosList.tsx` (badges, cycle, cards) |
| `SizeGrid` | `formatTamanhos` |
| `PagamentosList` | `src/components/lists/PagamentosList.tsx` |
| `NovoServicoForm` | `src/components/forms/NovoServicoForm.tsx` |
| `PagamentoForm` | `src/components/forms/PagamentoForm.tsx` |
| `DateUtils` | `src/lib/utils.ts` |
| `Numbers` | JavaScript's `parseInt`, `parseFloat` and `Number` on strings |

`Strings`, `Folds`, `Sorting` and `Options` are general helpers: split and
join, first-occurrence replace, sums and filters, a stable insertion sort
over a strict weak order, and an option type.

Modelling choices:

- **Types.**
  - Money is `real`, quantities are `int`, and strings are `seq<char>`.
  - A stored status is a raw string, because documents may hold legacy labels. The empty string stands for a missing status: `undefined` and `""` behave alike in every place that reads the status.
  - Optional fields are `Option`.
  - `tamanhos` is a size grid or, on orders written under the earlier schema, text (`Types.Tamanhos`).
  - `valor_total_lote` is `Option<real>`: orders of the earlier schema may lack it.
- **Size grid.** The `Record<string, number>` size grid is a sequence of
  (size, quantity) entries, in the order `Object.entries` yields them:
  keys that look like array indices first, in ascending numeric order, then
  the others in insertion order.
  Formatting depends on that order. An object's sizes are distinct; the
  model does not rely on that, and its formatting properties hold of any
  list of entries.
- **Store-supplied inputs.**
  - `Timestamp.now()` is a parameter `now`.
  - Whether a store write succeeds is a parameter `writeOk`.
  - A loaded collection is a sequence.
- **Dates.** A date the helpers build is a tuple of local calendar
  components (`DateUtils.LocalDateTime`). "Now" is the distinguished value
  `CurrentTime`. A string with a piece that is missing or is not a digit
  string gives `InvalidDate`.
- **Number readers.** `parseInt` and `parseFloat` read the longest numeric
  prefix after optional white space and sign. `NaN` is `None`. The
  `|| 0` fallback turns `None` (and 0) into 0. `Number` is modelled only on
  the pieces a date input produces (see "Left out").

Behaviour of the code a reader might not expect:

- No transition rule is enforced: any target status is accepted (`UseServicos.AnyTransitionAccepted`).
- The cycle wraps from CONCLUIDO back to PENDENTE.
- Every entry into EM_ANDAMENTO overwrites the start time, not just the first.
- A payment amount is never checked to be positive (`PagamentoForm.NegativeAmountAccepted`).
- The new-service form sends a typed quantity and no size grid, so the quantity is not the sum of a grid.
- An order without a lot value shows 0 on its card but turns total production into `NaN`, and the receivable total too unless the order is stored as "CONCLUIDO" (`ServicosList.CardShowsZeroWhereTotalsAreNaN`, `UseServicos.MissingLotValueIsNaN`).

## Model

| member | source | states |
|---|---|---|
| Types.StatusStringsDistinct | src/types/index.ts:25 | the three canonical status strings are distinct, the three legacy labels are distinct, and no canonical string equals a legacy label |
| UseServicos.LoteTotal | src/hooks/useServicos.ts:45 | the lot value is zero exactly when the quantity or the unit price is zero, and positive when both are positive |
| UseServicos.AddServico | src/hooks/useServicos.ts:43-52 | the stored order's lot value is quantity × unit price, its status is "PENDENTE", its entry time is the write time, and it has no id yet |
| UseServicos.AddServicoKeepsCallerFields | src/hooks/useServicos.ts:46-51 | every caller field is stored as passed except the status, which the literal after the spread overrides; a caller status other than "PENDENTE" is therefore lost |
| UseServicos.StatusPayload | src/hooks/useServicos.ts:59-67 | the payload always carries the target status; it carries `data_inicio` exactly for EM_ANDAMENTO and `data_conclusao` exactly for CONCLUIDO, never both, each set to the write time |
| UseServicos.ApplyStatusUpdate | src/hooks/useServicos.ts:69 | the merged document's status is the target's canonical string |
| UseServicos.StatusUpdateFrame | src/hooks/useServicos.ts:61-69 | a status update changes only the status and the one timestamp its target names; the lot value stays consistent |
| UseServicos.AnyTransitionAccepted | src/hooks/useServicos.ts:59-69 | from any current status, including legacy, missing or unknown ones, every target status is written: there is no transition check |
| UseServicos.StartThenFinish | src/hooks/useServicos.ts:63-66 | starting and then finishing an order records both moments and ends in CONCLUIDO |
| UseServicos.TimestampsAreNotReset | src/hooks/useServicos.ts:61-67 | re-entering EM_ANDAMENTO overwrites the start time; moving back to PENDENTE clears neither timestamp |
| UseServicos.ReduceLotes | src/hooks/useServicos.ts:88 | the left fold of lot values is a number exactly when its start is one and every order has a lot value, and then it is the start plus the sum of the lot values |
| UseServicos.IsReceivable | src/hooks/useServicos.ts:87 | an order counts as still to receive exactly when it is not stored as "CONCLUIDO"; a missing status or the legacy "Entregue/Faturado" counts |
| UseServicos.ValorLote | src/components/lists/ServicosList.tsx:147 | `valor_total_lote || 0`: the stored lot value, or 0 for an order without one |
| UseServicos.TotalAReceber | src/hooks/useServicos.ts:86-88 | the receivable total is `NaN` exactly when some order not stored as "CONCLUIDO" has no lot value; otherwise it is the sum of those orders' lot values |
| UseServicos.ProducaoTotal | src/hooks/useServicos.ts:90 | total production is `NaN` exactly when some order has no lot value; otherwise it is the sum of all lot values |
| UseServicos.MissingLotValueIsNaN | src/hooks/useServicos.ts:86-90 | an order without a lot value makes production `NaN`, and makes the receivable total `NaN` exactly when it is not concluded or a neighbouring part already is `NaN` |
| UseServicos.TotalsPartition | src/hooks/useServicos.ts:86-90 | total production equals the receivable total plus the same fold over the orders stored exactly as "CONCLUIDO"; it is `NaN` exactly when one of the two parts is |
| UseServicos.TotalsOfEmpty | src/hooks/useServicos.ts:86-90 | both totals are the number 0 for an empty list |
| UseServicos.ReceivableAtMostProduction | src/hooks/useServicos.ts:86-90 | with non-negative lot values, whenever production is a number the receivable total is one too, and 0 ≤ receivable ≤ production |
| UseServicos.LegacyConcludedIsReceivable | src/hooks/useServicos.ts:87 | an order labelled "Entregue/Faturado", or with no status, adds its lot value to the receivable total, and makes that total `NaN` when it has none |
| UseServicos.ConcludingMovesValue | src/hooks/useServicos.ts:86-90 | concluding a receivable order leaves production unchanged and lowers a numeric receivable total by exactly its lot value; if the order has no lot value, the receivable total was `NaN` before |
| UseServicos.DashboardExample | src/hooks/useServicos.ts:86-90 | a pending lot of 100 and a concluded lot of 200 give 100 receivable and 300 production |
| UsePagamentos.AddPagamento | src/hooks/usePagamentos.ts:42-44 | the stored payment has no id (the store assigns it) and no status |
| UsePagamentos.AddPagamentoRoundTrip | src/hooks/usePagamentos.ts:42-44 | reading the caller part back from a stored payment gives exactly the record passed; every payment without id or status has that shape |
| UsePagamentos.TotalDespesas | src/hooks/usePagamentos.ts:60 | the expense total is the sum of the amounts of all payments, whatever their status |
| UsePagamentos.TotalDespesasOfEmpty | src/hooks/usePagamentos.ts:60 | the expense total of no payments is 0 |
| UsePagamentos.TotalDespesasAppend | src/hooks/usePagamentos.ts:60 | one more payment raises the expense total by exactly its amount |
| UsePagamentos.TotalDespesasOrderFree | src/hooks/usePagamentos.ts:21 | the expense total does not depend on the order in which the store delivers the payments |
| UsePagamentos.TotalDespesasOnlyAmounts | src/hooks/usePagamentos.ts:60 | two lists whose amounts agree position by position have the same total, whatever their names, dates and statuses |
| ServicosList.SafeStatus | src/components/lists/ServicosList.tsx:103 | the status key is never empty, and a non-empty stored status is used as it is |
| ServicosList.StatusBadge | src/components/lists/ServicosList.tsx:104 | the badge is the unknown-status badge exactly when the status key is not one of the six configured keys |
| ServicosList.LegacyKeysShareBadge | src/components/lists/ServicosList.tsx:11-36 | each legacy label shows the same label and class as its canonical counterpart |
| ServicosList.UnknownKeysAreDesconhecido | src/components/lists/ServicosList.tsx:38-41 | the badge reads "Desconhecido" exactly when the status is non-empty and neither a canonical string nor a legacy label |
| ServicosList.NormalizeStatus | src/components/lists/ServicosList.tsx:89-93 | "Em Produção" and "EM_ANDAMENTO" normalise to EM_ANDAMENTO, "Entregue/Faturado" and "CONCLUIDO" to CONCLUIDO, and every other string to PENDENTE |
| ServicosList.NormalizeRoundTrip | src/components/lists/ServicosList.tsx:89-93 | normalising the canonical string or the legacy label of a status gives that status back |
| ServicosList.BadgeAgreesWithNormalize | src/components/lists/ServicosList.tsx:11-36 | for every configured key, the badge is the one of the status the cycle normalises it to |
| ServicosList.CycleStatus | src/components/lists/ServicosList.tsx:88-97 | the written status is exactly the successor of the normalised current status in PENDENTE, EM_ANDAMENTO, CONCLUIDO, with CONCLUIDO wrapping to PENDENTE |
| ServicosList.Click | src/components/lists/ServicosList.tsx:95-97 | the string a click stores is the canonical string of that successor, so always one of "PENDENTE", "EM_ANDAMENTO", "CONCLUIDO" |
| ServicosList.CycleWritesCanonical | src/components/lists/ServicosList.tsx:43 | the written string is canonical and never a legacy label |
| ServicosList.ThreeClicks | src/components/lists/ServicosList.tsx:95-96 | three clicks return the canonical form of the normalised status, and a canonical status to itself |
| ServicosList.MissingStatusIsPendente | src/components/lists/ServicosList.tsx:103-104 | a missing status shows the PENDENTE badge and cycles as PENDENTE does, to EM_ANDAMENTO |
| ServicosList.OnBadgeClick | src/components/lists/ServicosList.tsx:155 | a click writes only when the order has an id |
| ServicosList.ClickAdvancesOrder | src/components/lists/ServicosList.tsx:155 | a click on an order with an id writes the next status to that id, stamping the start or completion time when it enters EM_ANDAMENTO or CONCLUIDO |
| ServicosList.TamanhosSource | src/components/lists/ServicosList.tsx:111 | a truthy stored `tamanhos` (any grid, even an empty one, or non-empty legacy text) is what gets formatted; otherwise the description is; `formatTamanhos` returns null exactly when neither is truthy. A grid with no positive quantity is truthy but shows no line |
| ServicosList.SizeLine | src/components/lists/ServicosList.tsx:128 | a sizes line is shown exactly when the formatted text is non-empty, and it is that text |
| ServicosList.GridTakesPrecedence | src/components/lists/ServicosList.tsx:111 | with a size grid stored in `tamanhos`, the text description never changes the sizes line, and an empty grid hides the line |
| ServicosList.TextWithoutGrid | src/components/lists/ServicosList.tsx:111 | when `tamanhos` is absent or empty text, the sizes line is the text description when it is non-empty, and absent otherwise |
| ServicosList.LegacyTextInTamanhos | src/components/lists/ServicosList.tsx:70-72 | non-empty text stored in `tamanhos` by the earlier schema is shown as written, whatever the description says |
| ServicosList.CardsOf | src/components/lists/ServicosList.tsx:102 | one card per order, in list order |
| ServicosList.Card | src/components/lists/ServicosList.tsx:113-171 | a card's badge label is the one the source's lookup gives for every status that is not an inherited name; its size line is never empty; it shows the lot value, or 0 for an order without one |
| ServicosList.CardShowsZeroWhereTotalsAreNaN | src/components/lists/ServicosList.tsx:147 | an order without a lot value shows 0 on its card, while the same order makes total production `NaN` |
| ServicosList.ServicosListView | src/components/lists/ServicosList.tsx:48-65 | skeleton exactly while loading, the empty state exactly for a loaded empty list, otherwise the cards of the orders, card i for order i |
| ServicosList.BadgeLabelAsWritten | src/components/lists/ServicosList.tsx:104 | the object-literal lookup agrees with the badge table on every configured key |
| ServicosList.CardBadgeAgainstSource | src/components/lists/ServicosList.tsx:103-104 | a card's badge label equals the label the source's lookup gives for every status except an inherited name, where the card shows "Desconhecido" and the source no label |
| ServicosList.InheritedKeyShowsNoLabel | src/components/lists/ServicosList.tsx:104 | the status "constructor" finds an inherited member, so no label is shown where "Desconhecido" was meant |
| ServicosList.LookupsAgreeOtherwise | src/components/lists/ServicosList.tsx:104 | away from the inherited property names, the object lookup and the badge table give the same label |
| SizeGrid.ComparatorCycle | src/components/lists/ServicosList.tsx:78-83 | the sort comparator puts P before G, G before H and H before P |
| SizeGrid.CompareAsWritten | src/components/lists/ServicosList.tsx:78-83 | the comparator is 0 only on equal sizes; a standard size sorts before another exactly when it comes earlier in PP, P, M, G, GG, EXG; any other pair sorts by name |
| SizeGrid.NoOrderSatisfiesAsWritten | src/components/lists/ServicosList.tsx:78-83 | in any arrangement of a grid holding P, G and H, some earlier size compares greater than a later one |
| SizeGrid.CompareAntisymmetric | src/components/lists/ServicosList.tsx:78-83 | swapping the comparator's arguments flips its sign, and it is 0 exactly for equal sizes |
| SizeGrid.CyclicGridInconsistent | src/components/lists/ServicosList.tsx:78-83 | on entries holding P, G and H the comparator is not a strict weak order |
| SizeGrid.PairConsistent | src/components/lists/ServicosList.tsx:78-83 | on entries drawn from two given entries the comparator is a strict weak order |
| SizeGrid.SortAsWritten | src/components/lists/ServicosList.tsx:78-83 | where the comparator is a strict weak order, sorting gives a permutation of the entries in which no entry comes after one that compares greater |
| SizeGrid.SizeRank | src/components/lists/ServicosList.tsx:75-80 | a standard size's rank is its position in PP, P, M, G, GG, EXG, and every other size ranks after all of them |
| SizeGrid.SizeBeforeIsStrictOrder | src/components/lists/ServicosList.tsx:78-83 | the corrected size order is irreflexive, asymmetric, transitive and total |
| SizeGrid.SizeBeforeAgreesWithSource | src/components/lists/ServicosList.tsx:78-83 | on two standard sizes, or on two non-standard ones, the corrected order agrees with the comparator in both directions |
| SizeGrid.EntryBeforeIsStrictWeakOrder | src/components/lists/ServicosList.tsx:78-83 | comparing entries by size is a strict weak order, as `Array.prototype.sort` requires |
| SizeGrid.SortBySize | src/components/lists/ServicosList.tsx:78 | the sorted entries are a permutation of the input in size order |
| SizeGrid.ShownEntries | src/components/lists/ServicosList.tsx:76-83 | the listed entries are the grid's entries with a positive quantity, each as often as the grid holds it, in an order against which the comparator has no objection where it is consistent, and in size order where it is not |
| SizeGrid.RenderAll | src/components/lists/ServicosList.tsx:85 | every entry is rendered as "qty size", one string per entry in order |
| SizeGrid.FormatTamanhos | src/components/lists/ServicosList.tsx:71-72 | no output exactly for an absent or empty value; a legacy text value is returned unchanged |
| SizeGrid.FormatGridContents | src/components/lists/ServicosList.tsx:76-85 | a grid is shown as the ", "-join of the rendered entries; the shown entries are the entries with quantity > 0, as a multiset; where the comparator is consistent on them none stands after one that compares greater, and where it is not they follow the corrected size order |
| SizeGrid.StandardSizesInFixedOrder | src/components/lists/ServicosList.tsx:75-81 | when every size is standard, the shown sizes follow PP, P, M, G, GG, EXG |
| SizeGrid.ConsistentGridsAgreeWithSource | src/components/lists/ServicosList.tsx:78-83 | when all sizes are standard, or none is, the comparator is consistent, no two shown entries stand against it, and the shown entries also follow the corrected order |
| SizeGrid.FormatExample | src/components/lists/ServicosList.tsx:76-85 | G:2, P:3, M:0 is shown as "3 P, 2 G" |
| SizeGrid.MixedGridExample | src/components/lists/ServicosList.tsx:76-85 | EG:2, M:3 is shown as "2 EG, 3 M", as the comparator orders it, although the corrected order puts M before EG |
| PagamentosList.EffectiveStatus | src/components/lists/PagamentosList.tsx:46 | the status is never empty; a non-empty stored status is used as it is |
| PagamentosList.IsPago | src/components/lists/PagamentosList.tsx:46-47 | a payment is paid exactly when its stored status is "PAGO" |
| PagamentosList.MissingStatusIsPendente | src/components/lists/PagamentosList.tsx:45-47 | a missing or empty status reads as "PENDENTE" and is not paid |
| PagamentosList.BadgeText | src/components/lists/PagamentosList.tsx:66 | the badge says "PAGO" exactly for a stored "PAGO", and "PENDENTE" for every other status |
| PagamentosList.ToggleLabel | src/components/lists/PagamentosList.tsx:94-101 | the toggle button offers "Marcar Pendente" exactly when the badge says "PAGO" |
| PagamentosList.Row | src/components/lists/PagamentosList.tsx:49-116 | a row shows the helper's name and amount as stored, "PAGO" exactly for a payment stored as "PAGO" and "PENDENTE" otherwise, and a toggle offering the opposite |
| PagamentosList.ToggleCall | src/components/lists/PagamentosList.tsx:92 | the toggle is called only for a payment with an id, and is handed that id and the stored status |
| PagamentosList.ToggleSeesRawStatus | src/components/lists/PagamentosList.tsx:92 | a payment without a status shows "PENDENTE", but the toggle receives no status rather than "PENDENTE" |
| PagamentosList.DeleteCall | src/components/lists/PagamentosList.tsx:108 | delete is called only for a payment with an id, and with that id |
| PagamentosList.ShownList | src/components/lists/PagamentosList.tsx:18 | a given `data` prop is the list shown, even when empty; otherwise the hook's list is |
| PagamentosList.PagamentosListView | src/components/lists/PagamentosList.tsx:20-44 | skeleton exactly while loading without a `data` prop, the empty state exactly for an empty shown list, otherwise one row per payment in order |
| PagamentosList.DataPropWins | src/components/lists/PagamentosList.tsx:18-20 | with a `data` prop, the hook's list and loading flag change nothing, and an empty prop shows the empty state |
| PagamentosList.RowsShowStatus | src/components/lists/PagamentosList.tsx:66 | each row's badge says "PENDENTE" exactly when that payment is not stored as "PAGO" |
| PagamentosList.DespesasSplitByStatus | src/hooks/usePagamentos.ts:60 | the expense total is the paid amounts plus the pending amounts |
| NovoServicoForm.QuantidadeNum | src/components/forms/NovoServicoForm.tsx:23 | a non-zero quantity is the value `parseInt` read; text without digits reads as 0, and a digit string as its value |
| NovoServicoForm.ValorNum | src/components/forms/NovoServicoForm.tsx:24 | a unit price without digits reads as 0, and a digit string as its value |
| NovoServicoForm.ValorTotal | src/components/forms/NovoServicoForm.tsx:25 | the total shown is 0 exactly when the quantity or the unit price reads as 0, and positive when both are positive |
| NovoServicoForm.MissingRequired | src/components/forms/NovoServicoForm.tsx:35 | the guard fires exactly when the supplier, piece type, quantity or unit price is empty |
| NovoServicoForm.SubmitDisabled | src/components/forms/NovoServicoForm.tsx:164 | the button is locked exactly while saving or when the quantity or the unit price reads as 0 |
| NovoServicoForm.SubmittedRecord | src/components/forms/NovoServicoForm.tsx:46-53 | the record carries the two readings, the typed size description and no grid, and the legacy status "Pendente" |
| NovoServicoForm.HandleSubmit | src/components/forms/NovoServicoForm.tsx:35-42 | a submission is rejected exactly when the supplier, piece type, quantity or unit price is empty |
| NovoServicoForm.SizesAreOptional | src/components/forms/NovoServicoForm.tsx:35 | the size description never decides whether a submission is rejected |
| NovoServicoForm.StoredTotalMatchesShown | src/components/forms/NovoServicoForm.tsx:46-53 | the stored lot value equals the total the form showed, and the stored status is "PENDENTE", not the "Pendente" the form sent |
| NovoServicoForm.EnabledSubmitStoresNonZero | src/components/forms/NovoServicoForm.tsx:164 | whenever the button lets a submission through, the stored lot value is not zero |
| NovoServicoForm.UnreadableQuantityLocks | src/components/forms/NovoServicoForm.tsx:23 | a non-empty quantity without digits passes the guard but reads as 0, so the total is 0 and the button is locked |
| NovoServicoForm.FractionalQuantityLocks | src/components/forms/NovoServicoForm.tsx:23-25 | a fractional quantity such as "0.5", which a number input hands over, is read by `parseInt` as 0, so the total is 0 and the button is locked although the guard would pass |
| NovoServicoForm.TotalExample | src/components/forms/NovoServicoForm.tsx:23-25 | 10 pieces at "12,50" read as 10 and 12.5, for a total of 125 |
| PagamentoForm.MissingRequired | src/components/forms/PagamentoForm.tsx:23 | the guard fires exactly when the name, the work date or the amount is empty |
| PagamentoForm.ValorNum | src/components/forms/PagamentoForm.tsx:32 | an amount without digits reads as 0, and a digit string as its value |
| PagamentoForm.Record | src/components/forms/PagamentoForm.tsx:36-40 | the record holds the typed name, the work date at noon and the amount read, and nothing else |
| PagamentoForm.HandleSubmit | src/components/forms/PagamentoForm.tsx:23-55 | nothing is written exactly when a field is empty; otherwise the record is written; the fields are cleared only after a successful write, and kept as typed otherwise |
| PagamentoForm.SavedFormRejectsResubmit | src/components/forms/PagamentoForm.tsx:47-49 | after a successful save, an immediate second submission is rejected |
| PagamentoForm.FailedSaveCanBeRetried | src/components/forms/PagamentoForm.tsx:50-55 | after a failed write, submitting again tries to write the same record |
| PagamentoForm.UnreadableAmountSavedAsZero | src/components/forms/PagamentoForm.tsx:23-32 | a non-empty amount without digits passes the guard and is saved as 0 |
| PagamentoForm.NegativeAmountAccepted | src/components/forms/PagamentoForm.tsx:32-39 | a negative amount is accepted and saved as its negative value |
| PagamentoForm.SavedDateIsTheTypedDay | src/components/forms/PagamentoForm.tsx:38 | a saved work date is never "now"; a well-formed date is saved at noon of the typed day |
| PagamentoForm.StoredPaymentHasNoStatus | src/components/forms/PagamentoForm.tsx:36-40 | the stored payment has no status and reads back as the form's record |
| PagamentoForm.AmountExample | src/components/forms/PagamentoForm.tsx:32 | "12,50" is saved as 12.5 |
| Numbers.NumberOf | src/lib/utils.ts:15 | on the pieces of a date string, a digit string reads as its decimal value and any other piece as `NaN` |
| Numbers.ParseInt | src/components/forms/NovoServicoForm.tsx:23 | a non-empty digit string reads as its decimal value |
| Numbers.ParseIntOrZero | src/components/forms/NovoServicoForm.tsx:23 | a non-zero result is what `parseInt` read, and a non-empty digit string reads as its value |
| Numbers.ParseFloat | src/components/forms/PagamentoForm.tsx:32 | a non-empty digit string reads as its decimal value |
| Numbers.ParseDecimalComma | src/components/forms/PagamentoForm.tsx:32 | a string without a comma reads as `parseFloat` reads it; otherwise its first comma is read as a decimal point; `NaN` becomes 0 |
| Numbers.ParseIntReadsCount | src/components/forms/NovoServicoForm.tsx:23 | `parseInt` reads a rendered count, signed or not, up to the first non-digit |
| Numbers.ParseIntNoDigit | src/components/forms/NovoServicoForm.tsx:23 | a string without digits is `NaN` for `parseInt`, so the quantity reads as 0 |
| Numbers.DecimalCommaValue | src/components/forms/NovoServicoForm.tsx:24 | "a,b" with digit strings a and b reads as a + 0.b |
| Numbers.DecimalCommaAfterPoint | src/components/forms/NovoServicoForm.tsx:24 | in "a.b,c" only the comma is replaced, and the resulting second point stops the parse at a.b |
| Numbers.DecimalCommaWhole | src/components/forms/PagamentoForm.tsx:32 | a digit string reads as its value |
| Numbers.DecimalCommaNegative | src/components/forms/PagamentoForm.tsx:32 | a minus sign followed by digits reads as the negated value |
| Numbers.DecimalCommaNoDigit | src/components/forms/PagamentoForm.tsx:32 | a string without digits reads as 0 |
| Numbers.DecimalCommaExample | src/components/forms/NovoServicoForm.tsx:24 | "12,50" reads as 12.5 |
| Numbers.DecimalCommaThousandsExample | src/components/forms/NovoServicoForm.tsx:24 | "1.234,56" reads as 1.234 |
| Numbers.DecimalCommaEmptyExample | src/components/forms/NovoServicoForm.tsx:24 | "" and "abc" read as 0 |
| Strings.ReplaceFirstSpec | src/components/forms/NovoServicoForm.tsx:24 | `replace(',', '.')` changes only the first comma, and leaves a string without a comma unchanged |
| DateUtils.MakeFullYear | src/lib/utils.ts:17 | the constructor's year is the given one, or 1900 plus it exactly when it is 0 to 99, and never lies in 0 to 99 |
| DateUtils.DateFields | src/lib/utils.ts:15 | a well-formed "YYYY-MM-DD" gives its three numbers; a string without '-' has no month and no day |
| DateUtils.ParseDateAt | src/lib/utils.ts:13-17 | the helpers return "now" exactly for the empty string and an invalid date exactly when a piece is missing or not a number; a date they build has the given time of day and a year outside 0 to 99 |
| DateUtils.ParseDateToNoon | src/lib/utils.ts:13-18 | "now" exactly for the empty string; a built date is at noon |
| DateUtils.ParseDateToStartOfDay | src/lib/utils.ts:23-27 | "now" exactly for the empty string; a built date is at the first millisecond of its day |
| DateUtils.ParseDateToEndOfDay | src/lib/utils.ts:32-36 | "now" exactly for the empty string; a built date is at the last millisecond of its day |
| DateUtils.SplitWellFormed | src/lib/utils.ts:15 | a "YYYY-MM-DD" string splits into its year, month and day parts |
| DateUtils.NoonComponents | src/lib/utils.ts:13-17 | "YYYY-MM-DD" (year from 100 on) gives year YYYY, month index MM−1, day DD, at 12:00:00.000 |
| DateUtils.TwoDigitYear | src/lib/utils.ts:17 | a year written below 100 is moved to 1900 plus that year, as the `Date` constructor does |
| DateUtils.ExampleOctoberSecond | src/lib/__tests__/utils.test.ts:4-30 | "2023-10-02" gives 2023, month index 9, day 2 at noon, at 00:00:00.000 and at 23:59:59.999 |
| DateUtils.EmptyIsCurrentTime | src/lib/utils.ts:13-36 | all three helpers give "now" exactly for the empty string |
| DateUtils.SameDayBounds | src/lib/utils.ts:13-36 | the three helpers succeed on the same inputs, agree on year, month and day, and place start < noon < end within the day, from its first to its last millisecond |

## Left out

- Store plumbing. The model leaves out `onSnapshot` subscriptions, `addDoc`, `updateDoc`, `deleteDoc`, the hooks' loading and error state, and the error re-throws. A collection is a sequence, a write is the record or payload it sends, and success is a parameter. `deleteServico` and `deletePagamento` only name a document, so the model covers just the id guard in front of delete (`PagamentosList.DeleteCall`).
- `togglePagamentoStatus` is called by the payment list but is not defined by the payment hook. Only the arguments it receives are modelled.
- `src/hooks/useVoiceAI.ts` (an external language-model call and its JSON parsing) is not part of this model.
- Currency formatting (`Intl.NumberFormat`), date-fns formatting of dates, the toast messages, navigation after a save, and the loading spinner of the forms are presentation.
- SizeGrid.LocaleCompare: `localeCompare` is approximated by code-point order. Locale collation is library behaviour.
- Numbers.ParseFloat: the "Infinity" prefix is not modelled.
- Numbers.NumberOf: `Number` also accepts surrounding white space, a sign, a decimal point, an exponent, "0x"/"0o"/"0b" prefixes and "Infinity". The model reads only digit strings, which is all an HTML date input produces, and takes every other piece as `NaN`.
- ServicosList.Card: the card's badge uses the corrected own-key lookup (`StatusBadge`), not the lookup as written at ServicosList.tsx:104. For a stored status that names an `Object.prototype` member ("constructor") the card shows "Desconhecido" where the source shows no label (`ServicosList.CardBadgeAgainstSource`); every other status shows the same label.
- Numbers.ParseInt: radix prefixes ("0x") are not modelled.
- DateUtils.ParseDateAt: the `Date` constructor's overflow normalisation ("2023-13-40") and time zones are not modelled. A date is its components as passed. `Timestamp.fromDate` is taken as storing that date.
- Values are exact `real` numbers. IEEE double rounding (for example `0.1 * 3`) is not modelled.
- Date-range filtering of the dashboard has no code in the modelled files.

## Findings

| source | as written | input that shows it | evidently intended | confidence | as-written member | corrected member |
|---|---|---|---|---|---|---|
| src/components/lists/ServicosList.tsx:78-83 | the comparator subtracts positions when both sizes are standard and falls back to `localeCompare` otherwise, which is not a consistent order on mixed grids | a grid with sizes P, G and H, each with quantity > 0: P < G by position, G < H and H < P by name, so no arrangement satisfies it and the displayed order depends on the engine's sort | a definite order on every grid: the comparator's where it is consistent, and otherwise standard sizes in the fixed order with other sizes after them by name | medium; not executed | SizeGrid.NoOrderSatisfiesAsWritten | SizeGrid.FormatGridContents |
| src/components/lists/ServicosList.tsx:104 | the badge falls back to `unknownStatusConfig` only when `statusConfig[safeStatus]` is falsy, and that lookup is on a plain object literal, so inherited property names are found | a stored status "constructor" finds `Object`, which is truthy, so the badge shows no label | any unconfigured status shows "Desconhecido" | low; not executed | ServicosList.InheritedKeyShowsNoLabel | ServicosList.UnknownKeysAreDesconhecido |
