# Blood-bank core: donors, units and hospital requests

This project models the core of a blood-bank web application. Donors give units of blood. Each unit is stored as a `Doacao` row, which is in stock while `valido` holds. Hospitals submit `Pedido` requests made of `LinhaPedido` lines: a blood group, a component and a quantity.

The modelled core does the following:

- **Order fulfilment.** A request is concluded all at once when every line's bucket (valid units of that group and component in the request's bank) holds at least the line's quantity. The oldest units are consumed first. This happens when the request is created (`criar_pedido`). After every donation (`registar_doacao`), the bank's active requests are attempted again, oldest request first.
- **Request state changes.** A hospital can cancel its own active request (`cancelar_pedido`); the administration can reject any request (`rejeitar_pedido`).
- **Donor eligibility:**
  - the age (`Dador.idade`);
  - the resting period after a donation (`ativar_dador`, `historico_dador`);
  - what a donation does to the donor.
- **Form checks:**
  - `DadorForm.clean` and `clean_nif`;
  - `DoacaoForm.clean_nif_dador`;
  - the optional quantity of a request line.
- **Dashboard alerts.** The stock alert count and the critical flag of the administrator dashboard (`pagina_admin`).

Modules and files:

| file | module | content |
|---|---|---|
| `common.dfy` | `Common` | `Option`, `Result`, `Min`, `Max` |
| `calendar.dfy` | `Calendar` | proleptic Gregorian dates and their day numbers (Python's `toordinal`), so that `(d1 - d2).days` is a difference of day numbers |
| `ordering.dfy` | `Ordering` | the row order of `order_by('data')`: (date, id) keys, insertion sort, slices |
| `models.dfy` | `Models` | the entities and choice enumerations of `models.py`, the age property |
| `fulfilment.dfy` | `Fulfilment` | the stock query, the stock check, FIFO consumption, the two attempts and the pass after a donation, stated as functions on the table contents, with their lemmas |
| `eligibility.dfy` | `Eligibility` | resting period, latest donation, countdown, activation gate, the donor after a donation |
| `orders.dfy` | `Orders` | cancellation and rejection |
| `forms.dfy` | `Forms` | the form checks; `DadorForm` as a class that accumulates errors |
| `alerts.dfy` | `Alerts` | the dashboard alerts, both as written and corrected |
| `views.dfy` | `Views` | class `Store` holding the three tables as `seq` fields; one method per view, proved to compute the functions above and to keep the store invariant `Valid()` |

**Identifiers and dates.** A row's id is its position in its table: ids are auto-increment and the views never delete rows. Equal dates in `order_by('data')` are ordered by id in the model; this is one fixed choice among the orders a database may return for equal dates. Dates are day numbers. `date.today()` is a parameter `hoje` of the methods.

**Where the models file and the views disagree.** The model follows the code of the views:

- `Pedido.estado` is declared as a `BooleanField` (farmacia/myfarmacia/models.py:94). The views read and write it as one of the strings "ativo", "concluido", "cancelado" and "rejeitado", so the model uses an enumeration of those four states.
- `Pedido.data` and `Doacao.data` are required date fields (`DateField()` without `null=True`, farmacia/myfarmacia/models.py:71-93) that neither view assigns. As written, `pedido.save()` and `doacao_nova.save()` would therefore insert NULL into a NOT NULL column. The model assumes instead that the new row gets today's date.
- The queries select units through `dador__tipo_sangue`. The model stores the donor's group on each unit, and `Store.Valid()` states that the stored group is the donor's. No modelled operation changes a donor's group.
- `forms.py` holds unresolved merge-conflict markers, from farmacia/myfarmacia/forms.py:3-10 to 171. Both sides are modelled: the request formset from one side and `DoacaoForm` from the other.

**Behaviour of the code worth knowing.**

- The resting period depends on the gender only: 120 days for "Feminino", 90 days otherwise, whatever component was given. Weight is checked by `DadorForm` only; `ativar_dador` checks the age and the resting period and nothing else.
- `registar_doacao` clears the donor's `ativo` flag, so the donor cannot give again until `ativar_dador` sets it.
- `rejeitar_pedido` sets "rejeitado" whatever the request's state, so a concluded request can be rejected after its units were consumed.
- The donation path concludes an active request without lines, because its check has no guard for that case. The creation path never concludes such a request.
- Lines of one request that name the same bucket are each checked against the whole stock, not against their sum, so such a request can be concluded with fewer units than it asked for.

## Model

| member | source | states |
|---|---|---|
| Ordering.Take | farmacia/myfarmacia/views.py:703-708 | the slice `[:n]` keeps the first `min(n, len)` keys in order |
| Ordering.Insert | farmacia/myfarmacia/views.py:708 | inserting into a sorted sequence keeps it sorted, adds one key and exactly that key |
| Ordering.Sort | farmacia/myfarmacia/views.py:708 | `order_by('data')`: the result is sorted by (date, id), has the same length and exactly the same keys |
| Ordering.PositionsCard | farmacia/myfarmacia/views.py:703-708 | a query result lists as many rows as it has entries when no row repeats |
| Calendar.OrdinalMonotone | farmacia/myfarmacia/views.py:552 | day numbers order dates as the calendar does, so day differences have the sign Python gives them |
| Calendar.OrdinalNextDay | farmacia/myfarmacia/views.py:552 | consecutive dates have consecutive day numbers |
| Calendar.YearLength | farmacia/myfarmacia/views.py:552 | the days before year `y+1` are those before `y` plus the length of `y`, leap years included |
| Calendar.YearsGrow | farmacia/myfarmacia/views.py:552 | a later year starts after the earlier year ends |
| Calendar.DaysBeforeMonthTable | farmacia/myfarmacia/views.py:552 | the days before a month agree with Python's cumulative month table plus the leap day |
| Calendar.DaysBeforeMonthBound | farmacia/myfarmacia/views.py:552 | a month ends within its year and December ends it exactly |
| Calendar.DaysBeforeMonthGrows | farmacia/myfarmacia/views.py:552 | a later month starts after an earlier month ends |
| Common.Min | farmacia/myfarmacia/views.py:708 | the minimum is at most both arguments and equals one of them |
| Common.Max | farmacia/myfarmacia/views.py:871 | the maximum is at least both arguments and equals one of them |
| Models.NovoDador | farmacia/myfarmacia/models.py:27-37 | a registered donor is apt (`ativo` defaults to true), has no donation yet and keeps the submitted NIF, birth date, group and bank |
| Models.NovaDoacao | farmacia/myfarmacia/views.py:789-798 | a new unit is valid, is in the donor's bank, has the donor's group and is dated today |
| Models.NovoPedido | farmacia/myfarmacia/views.py:670-673 | a new request is active, in the hospital's bank, with the given lines |
| Models.Idade | farmacia/myfarmacia/models.py:39-50 | there is no age exactly when there is no birth date |
| Models.IdadeYearDifference | farmacia/myfarmacia/models.py:44-48 | the age is the year difference, less one exactly while this year's birthday has not come |
| Models.IdadeOnBirthday | farmacia/myfarmacia/models.py:47 | on the birthday the year already counts |
| Models.IdadeAnniversary | farmacia/myfarmacia/models.py:39-50 | the age is at least `n` exactly when the `n`-th anniversary is on or before today |
| Models.IdadeMonotone | farmacia/myfarmacia/models.py:39-50 | the age never decreases as the date advances |
| Models.ChoicesEnumerated | farmacia/myfarmacia/models.py:17-25 | eight distinct group codes and three distinct component codes, and every value is listed |
| Fulfilment.Candidates | farmacia/myfarmacia/views.py:688-693 | the candidates are exactly the bucket's rows (valid, group, component, bank), in ascending id order, with their dates |
| Fulfilment.QueryFacts | farmacia/myfarmacia/views.py:703-708 | the ordered query holds each row of the bucket once and nothing else, sorted by (date, id); its length is the `.count()` |
| Fulfilment.SelectionFacts | farmacia/myfarmacia/views.py:703-708 | the selection takes `min(quantity, stock)` rows of the bucket, each earlier than every bucket row left out |
| Fulfilment.ConsumeLineSpec | farmacia/myfarmacia/views.py:701-713 | consuming a line turns exactly `min(quantity, stock)` units of its bucket from valid to consumed, the oldest ones, and changes nothing else |
| Fulfilment.ConsumedRows | farmacia/myfarmacia/views.py:711-713 | setting `valido = False` on rows in stock consumes exactly those rows |
| Fulfilment.ConsumeLineStock | farmacia/myfarmacia/views.py:701-713 | the line's bucket loses `min(quantity, stock)` units and every other bucket keeps its rows |
| Fulfilment.ConsumeAllSpec | farmacia/myfarmacia/views.py:700-713 | consuming all lines takes from each bucket of the bank `min(stock, total demand on it)` units, touches no bucket of another bank and no unit the request does not name, and only ever turns valid units into consumed ones |
| Fulfilment.DemandOfDistinct | farmacia/myfarmacia/views.py:687-697 | when lines name distinct buckets, a bucket's demand is its one line's quantity |
| Fulfilment.DemandAbsent | farmacia/myfarmacia/views.py:687-697 | a bucket no line names has no demand |
| Fulfilment.ConservationDistinctBuckets | farmacia/myfarmacia/views.py:685-716 | when lines name distinct buckets and the check passes, each line's bucket loses exactly the line's quantity |
| Fulfilment.SameBucketShortfall | farmacia/myfarmacia/views.py:687-697 | two lines of 2 on a bucket of 3 pass the check, and the request is served 3 units, not 4 |
| Fulfilment.CreationAllOrNothing | farmacia/myfarmacia/views.py:685-719 | at creation the request is concluded exactly when it has a line and every line passes the check; otherwise it stays active and no unit changes; when concluded each bucket loses `min(stock, demand)`, only requested units change, and the units taken from each bucket are its oldest |
| Fulfilment.ConsumeAllOldestFirst | farmacia/myfarmacia/views.py:702-713 | after all lines are consumed, no unit left in a bucket of the bank is older than a unit taken from it, also when two lines name the same bucket |
| Fulfilment.DonationAllOrNothing | farmacia/myfarmacia/views.py:815-842 | a stored active request is concluded exactly when every line passes the check; otherwise its state and every unit stay as they were; when concluded each bucket of its bank loses `min(stock, demand)`, oldest units first, and only requested units change |
| Fulfilment.EmptyOrderPaths | farmacia/myfarmacia/views.py:700-842 | a request without lines stays active at creation, but the donation path concludes it |
| Fulfilment.ActiveCandidates | farmacia/myfarmacia/views.py:806-809 | the candidates are exactly the active requests of the bank, in ascending id order |
| Fulfilment.ActiveQueueFacts | farmacia/myfarmacia/views.py:806-809 | the queue holds each active request of the bank once and nothing else, oldest first |
| Fulfilment.Retrigger | farmacia/myfarmacia/views.py:811-842 | the pass over the queue keeps the number of requests |
| Fulfilment.RetriggerSpec | farmacia/myfarmacia/views.py:811-842 | each queued request is left as it was or concluded, nothing else about any request changes, units only go from valid to consumed, and units of other banks are untouched |
| Fulfilment.RetriggerOldestFirst | farmacia/myfarmacia/views.py:806-842 | the oldest active request is concluded exactly when the stock, as it stands after the donation, covers it |
| Fulfilment.DonationPassSpec | farmacia/myfarmacia/views.py:805-842 | the pass after a donation never touches requests that are not active or belong to another bank, only concludes, and keeps units of other banks |
| Fulfilment.RetriggerConsumption | farmacia/myfarmacia/views.py:811-842 | with every queued request active, each unit the pass consumes is asked for by a queued request the pass concluded, and a pass that concludes none changes no unit |
| Fulfilment.DonationPassConsumption | farmacia/myfarmacia/views.py:805-842 | each unit the pass after a donation consumes is asked for by an active request of the bank that the pass concluded; a pass that concludes no request consumes nothing |
| Fulfilment.EvolvesTransitive | farmacia/myfarmacia/views.py:811-842 | steps that only consume units compose into a step that only consumes units |
| Eligibility.Intervalo | farmacia/myfarmacia/views.py:551 | the resting period is 120 days exactly for "Feminino", 90 otherwise |
| Eligibility.UltimaData | farmacia/myfarmacia/views.py:549 | the latest donation date of the donor, of any state: absent exactly when the donor has no unit, the date of one of its units, and no unit of the donor is later |
| Eligibility.DiasRestantes | farmacia/myfarmacia/views.py:866-871 | the countdown is 0 exactly when there is no donation or the resting period has elapsed, and never exceeds the period |
| Eligibility.CountdownTicks | farmacia/myfarmacia/views.py:869-871 | each passing day takes one day off the countdown until it reaches 0 |
| Eligibility.CountdownOnDonationDay | farmacia/myfarmacia/views.py:869-871 | on a donation day the countdown is the whole period |
| Eligibility.ActivationGate | farmacia/myfarmacia/views.py:543-561 | activation succeeds exactly for an adult whose countdown is 0; a minor is refused first; the missing days reported are the countdown |
| Eligibility.AposDoacao | farmacia/myfarmacia/views.py:800-803 | after a donation the donor is not apt, the latest donation is today, and nothing else changes |
| Eligibility.NoActivationOnDonationDay | farmacia/myfarmacia/views.py:543-561 | an adult who gave today cannot be activated today; the whole period is missing |
| Orders.CancelarSpec | farmacia/myfarmacia/views.py:733-753 | the state becomes cancelled exactly when the caller owns the request and it is active; otherwise it is unchanged; the message names the failed check, ownership first |
| Orders.Rejeitar | farmacia/myfarmacia/views.py:118-124 | rejection sets "rejeitado" from any state and changes nothing else |
| Orders.TerminalStates | farmacia/myfarmacia/views.py:733-753 | cancellation never leaves a terminal state, whereas rejection turns a concluded request into a rejected one |
| Forms.ClinicalErrors | farmacia/myfarmacia/forms.py:61-79 | each clinical error is present exactly when its check fails: age under 18, age over 65 on a first registration, weight under 50 |
| Forms.ClinicalAcceptance | farmacia/myfarmacia/forms.py:61-79 | the clinical checks accept exactly the donors within the age and weight limits; an edit has no upper age limit |
| Forms.DadorForm.constructor | farmacia/myfarmacia/forms.py:50 | a new form is bound to its instance and has no errors |
| Forms.DadorForm.AddError | farmacia/myfarmacia/forms.py:71 | `add_error` appends the error and keeps the earlier ones |
| Forms.DadorForm.Clean | farmacia/myfarmacia/forms.py:61-79 | `clean` appends exactly the failed checks' errors to the form |
| Forms.CleanNif | farmacia/myfarmacia/forms.py:81-97 | when editing the stored NIF is kept; otherwise the NIF is accepted exactly when it is empty or nine digits and no donor has it; the format error comes first |
| Forms.NifImmutable | farmacia/myfarmacia/forms.py:81-88 | editing never changes a donor's NIF |
| Forms.ComNif | farmacia/myfarmacia/forms.py:148-151 | the rows with the NIF, each once, in order |
| Forms.ProcurarNif | farmacia/myfarmacia/forms.py:148-151 | `get(nif=...)` finds nothing exactly when no donor has the NIF, the unique donor when exactly one has it, and several exactly when two have it |
| Forms.CleanNifDador | farmacia/myfarmacia/forms.py:144-158 | an unknown NIF and an inactive donor are refused; an accepted NIF names an active donor holding it |
| Forms.CleanNifDadorUnique | farmacia/myfarmacia/forms.py:144-158 | with unique NIFs the lookup finds the donor holding the NIF and refuses it exactly when inactive |
| Forms.CampoTexto | farmacia/myfarmacia/forms.py:132-136 | a required text field refuses an empty value as missing and a longer one than its limit as too long, and otherwise passes the value on |
| Forms.ValidarNif | farmacia/myfarmacia/models.py:30 | DadorForm's `nif` field refuses an empty NIF and one longer than 12 before `clean_nif` runs; otherwise `clean_nif` decides |
| Forms.RegistoNif | farmacia/myfarmacia/forms.py:81-97 | on a first registration the NIF is accepted exactly when it is nine digits and no donor has it, and it is kept as given |
| Forms.ValidarNifDador | farmacia/myfarmacia/forms.py:132-158 | the `nif_dador` field refuses an empty NIF and one longer than 9 before `clean_nif_dador` runs; otherwise `clean_nif_dador` decides |
| Forms.ValidarNifDadorUnique | farmacia/myfarmacia/forms.py:144-158 | with unique NIFs a stored donor's nine-digit NIF passes the field and names that donor, refused exactly when inactive |
| Forms.LinhasCriadas | farmacia/myfarmacia/views.py:677-683 | every saved line has a positive quantity, and the saved lines are the formset lines with a given positive quantity (membership in both directions) |
| Forms.Guardados | farmacia/myfarmacia/views.py:677-683 | the formset positions whose quantity is given and positive, each once, in ascending order |
| Forms.LinhasCriadasOrdem | farmacia/myfarmacia/views.py:677-683 | the saved lines are the formset's saved entries one for one, in the formset's order, so a line given twice is saved twice |
| Alerts.LowInRowSpec | farmacia/myfarmacia/views.py:81-93 | a row's alerts are at most its width, and 0 exactly when every count reaches the limit |
| Alerts.LowInGridSpec | farmacia/myfarmacia/views.py:81-93 | the alerts are at most the number of cells, 0 exactly when every count reaches the limit, and positive whenever some count is 0 |
| Alerts.AlertasSpec | farmacia/myfarmacia/views.py:75-93 | corrected: at most 24 alerts, none exactly when every group and component has 5 valid units, and a critical bucket always alerts |
| Alerts.Lower | farmacia/myfarmacia/views.py:86 | lower-casing keeps the length |
| Alerts.LabelMatches | farmacia/myfarmacia/views.py:79-87 | "Sangue" and "Plasma" match their stored codes case-insensitively, and "Globulos Vermelhos" matches no code |
| Alerts.RedCellsZero | farmacia/myfarmacia/views.py:83-88 | as written, the red-cell count is 0 for every group |
| Alerts.SameStock | farmacia/myfarmacia/views.py:83-88 | as written, the whole-blood and plasma counts are the true counts |
| Alerts.RowAsWritten | farmacia/myfarmacia/views.py:81-93 | as written, every group has at least one alert, and exactly one when its whole blood and plasma are stocked |
| Alerts.RowsAtLeastOne | farmacia/myfarmacia/views.py:81-93 | a grid whose every row alerts has at least one alert per row |
| Alerts.RowsExactlyOne | farmacia/myfarmacia/views.py:81-93 | a grid whose every row has one alert has one alert per row |
| Alerts.AlertasEscritasFinding | farmacia/myfarmacia/views.py:75-93 | as written: at least 8 alerts and always critical; fully stocked: corrected 0 alerts and not critical, as written exactly 8 |
| Views.Store.constructor | farmacia/myfarmacia/models.py:27-108 | an empty store satisfies the invariant |
| Views.Store.PodeSatisfazer | farmacia/myfarmacia/views.py:685-697 | the check loop with its early exit answers exactly `Feasible` |
| Views.Store.ConsumirLinha | farmacia/myfarmacia/views.py:703-713 | the loop over the selected units leaves the units table as `ConsumeLine` |
| Views.Store.ConsumirLinhas | farmacia/myfarmacia/views.py:700-713 | the loop over the lines leaves the units table as `ConsumeAll` |
| Views.Store.CriarPedido | farmacia/myfarmacia/views.py:668-719 | the request is appended with the saved lines, and its state and the units are those of `AttemptAtCreation`; the invariant is kept |
| Views.Store.GuardarLinhas | farmacia/myfarmacia/views.py:676-683 | the formset loop saves on the new request exactly the lines `LinhasCriadas` keeps, in order, and changes nothing else |
| Views.Store.ProcessarFila | farmacia/myfarmacia/views.py:806-842 | the loop over the bank's active requests leaves units and requests as `Retrigger` over the queue, oldest first |
| Views.Store.RegistarDoacao | farmacia/myfarmacia/views.py:778-842 | the answer is that of the `nif_dador` field and `clean_nif_dador`, never an ambiguous NIF since NIFs are unique; on a refusal nothing changes; otherwise the unit is appended, the donor updated and the tables are those of `Retrigger` over the bank's queue; the invariant is kept |
| Views.Store.CancelarPedido | farmacia/myfarmacia/views.py:733-753 | a missing id is not found; otherwise the state and message are `Cancelar`'s; nothing else changes |
| Views.Store.RejeitarPedido | farmacia/myfarmacia/views.py:117-124 | a missing id is not found; otherwise the request is `Rejeitar`'s; nothing else changes |
| Views.Store.AtivarDador | farmacia/myfarmacia/views.py:539-561 | no donor with the NIF fails, and several donors never occur since NIFs are unique; otherwise `Ativar` decides and only an activation sets `ativo` |
| Views.Store.HistoricoDador | farmacia/myfarmacia/views.py:854-871 | not found exactly when no donor has the NIF; otherwise the countdown is `DiasRestantes` of the donor's latest donation |
| Views.Store.RegistarDador | farmacia/myfarmacia/views.py:425-436 | the donor is appended, apt and without donations, exactly when neither the `nif` field (required, at most 12 characters, then `clean_nif`) nor `clean` adds an error, and the errors are returned otherwise; NIFs stay unique and nine digits |
| Views.Store.AlertasDoTipo | farmacia/myfarmacia/views.py:83-93 | the inner loop for one group counts its alerts and reports whether one of its counts is 0 |
| Views.Store.PaginaAdminAlertas | farmacia/myfarmacia/views.py:75-93 | the nested loop computes the corrected alert count and critical flag |
| Views.SelectionInRange | farmacia/myfarmacia/views.py:703-708 | every selected unit is a row of the table |
| Views.InvalidateStep | farmacia/myfarmacia/views.py:711-713 | consuming one more row is one update of the table |
| Views.PositionsSnoc | farmacia/myfarmacia/views.py:711 | the rows visited grow by one per iteration |
| Views.GridSnoc | farmacia/myfarmacia/views.py:81-93 | the critical flag after one more group is the old flag or a 0 in that group's row |

## Left out

- Login, roles and the `request.user.tipo` redirects are not modelled. Every method runs as the right kind of user.
- Messages, templates, redirects, CSV export and the statistics pages are presentation only and are not modelled.
- The other indicators of `pagina_admin` are not modelled: the total stock, the number of sites and hospitals, and the pending requests. They are plain counts with no rule attached.
- The GET branch of `ativar_dador` only displays a donor found by its NIF, so it is not modelled.
- `desativar_dador` and `atualizar_informacao` are not modelled: they are plain updates outside the core. The edit path of `DadorForm` is modelled through `CleanNif` and `ClinicalErrors` with an instance.
- The ViewSets, serializers, URLs, the admin site and the migrations are not modelled.
- Transactions and concurrency are not modelled. The two views run their check and consumption without a lock, and the model runs each view as one atomic step.
- `Store.CriarPedido` models only a hospital user with a hospital profile. A hospital or bank of `None` is not modelled.
- Donor name, telephone and collection site (`posto`) take part in no rule, so they are not modelled. The weight is a `real`; the source's decimal has at most five digits.
- Forms.NifBemFormado: `str.isdigit` accepts every Unicode digit. The model accepts the ASCII digits 0-9 only.
- Forms.LinhasCriadas: formset deletion (`can_delete`) and the formset's own field validation are not modelled. A line is saved exactly when its quantity is given and positive.
- Forms.CampoTexto: Django's `CharField` strips surrounding whitespace before these checks. The model does not strip, so a NIF padded with spaces is refused by the format check rather than accepted.
- Views.Store.RegistarDoacao: of DoacaoForm's fields only `nif_dador` is validated. The model fields `componente`, `valido`, `posto` and `banco` are taken as given: the component is a parameter, and the view overwrites the bank and `valido`.
- Views.Store.RegistarDador: of DadorForm's fields only `nif`, `dataNascimento` and `peso` are validated, and the last two are always present. The required-field checks of name, gender, telephone, group and bank are not modelled.
- Views.Store.RegistarDoacao: the view's second `ativo` test is not modelled as a branch. It can never fail after `clean_nif_dador` has accepted the donor.
- Models.Idade: the age is computed for any date, without checking that the birth date is a valid calendar date.
- Ordering.Sort: equal dates are ordered by id. A database may return rows with equal dates in another order.

## Findings

| source | as written | input that shows it | evidently intended | confidence | as-written member | corrected member |
|---|---|---|---|---|---|---|
| farmacia/myfarmacia/views.py:79-87 | the alert loop counts `componente__iexact` against the labels "Sangue", "Plasma" and "Globulos Vermelhos", but the stored red-cell code is "globulos" | any stock, for example every group and component with 5 valid units: the red-cell count is 0 for all 8 groups, so `num_alertas` is 8 and `perigo_critico` is true | count each stored component code, so a fully stocked bank shows 0 alerts and no critical danger | not executed | Alerts.AlertasEscritasFinding | Alerts.AlertasSpec |
