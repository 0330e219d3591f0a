# Bus booking for events: a Dafny model

OurAssist books bus seats for church events (assemblies, congresses). An event
has a number of buses of one capacity each. Seat 1 of every bus is the
driver's, so an event offers `buses × (capacity − 1)` passenger seats.

The system has two parts:

- **The public pages.**
  - The booking wizard collects a responsible party and a passenger list. It
    lets the visitor pick one seat per passenger on a seat map of every bus,
    and then posts a booking with a card number.
  - The lookup page finds a booking again by card number, by name or by
    document.
- **The protected pages,** guarded by a role (`admin`) or by designations
  (`gestor_eventos`, `visualizador_eventos`, `operador_mapeamento`):
  - the dashboard of events with occupancy figures;
  - the management page that lists, edits and deletes bookings;
  - the seat-mapping page that groups occupied seats by bus;
  - the administrator's page that grants designations.

The server (Express over SQLite) authenticates with a JWT taken from a Bearer
header or a cookie. It signs users in with a password or with Google. It stores
events and bookings as they are sent.

The model is one Dafny module per component:

| module | models |
|---|---|
| `BookingFlow` | client/src/pages/Agendamento.jsx |
| `SeatMap` | client/src/components/agendamento/MapaAssentos.jsx |
| `EditDialog` | client/src/components/gerenciar/EditarAgendamentoDialog.jsx |
| `ManageBookings` | client/src/pages/Gerenciar.jsx |
| `Mapping` | client/src/pages/Mapeamento.jsx |
| `PassengerLegend` | client/src/components/mapeamento/LegendaPassageiros.jsx |
| `BusView` | client/src/components/mapeamento/OnibusVisual.jsx |
| `EventCard` | client/src/components/dashboard/EventoCard.jsx |
| `Dashboard` | client/src/pages/Dashboard.jsx |
| `Lookup` | client/src/pages/Consulta.jsx |
| `RouteGuard` | client/src/components/layout/ProtectedRoute.jsx |
| `Menu` | client/src/Layout.jsx |
| `AccessConfig` | client/src/pages/ConfiguracaoAcesso.jsx |
| `LoginForm` | client/src/pages/Login.jsx |
| `Server` | server/server.js |
| `Domain` | the records the components share |
| `Text`, `Seqs`, `Sorting`, `Wrappers` | JavaScript string functions, list helpers, a sort and `Option`/`Result` |

Every state change is a pure function from the old value to the new one:

- a React state update takes the old state to the new one;
- a request to the server takes one `Server.Store` to another.

The model keeps four behaviours of the code as they are:

- The server never checks seat claims: two bookings may hold the same seat.
- The edit dialog's list of free seats ignores which event a claim belongs to.
- The wizard writes "NAO INFORMADO" for a missing document. The legend only
  recognises the accented "NÃO INFORMADO", so it shows the wizard's marker
  verbatim.
- The login page's sign-up never succeeds. It hands the API client one object
  where three arguments are expected, so the server sees no email or password.

## Model

| member | source | states |
|---|---|---|
| `BookingFlow.ToggleSeat` | client/src/pages/Agendamento.jsx:68-77 | a selected seat is removed (only that pair, order kept); an unselected one is appended while fewer seats than passengers are selected, otherwise nothing changes; selections without duplicate seats stay that way |
| `BookingFlow.UnselectRemovesOne` | client/src/pages/Agendamento.jsx:68-71 | clicking the k-th selected seat of a duplicate-free selection removes exactly entry k |
| `BookingFlow.ToggleTwiceRestores` | client/src/pages/Agendamento.jsx:68-76 | selecting a free seat and clicking it again gives back the original selection |
| `BookingFlow.AssignSeats` | client/src/pages/Agendamento.jsx:79-86 | the i-th seat gets the i-th passenger's name ("" past the end); bus, seat, document and count are kept |
| `BookingFlow.AssignKeepsSpots` | client/src/pages/Agendamento.jsx:79-84 | binding names changes neither which seats are held nor their distinctness |
| `BookingFlow.AssignIdempotent` | client/src/pages/Agendamento.jsx:79-84 | binding names twice is binding them once |
| `BookingFlow.SetResponsibleNoDoc` | client/src/pages/Agendamento.jsx:119-125 | the "no document" box sets the flag and writes the marker (or clears the document), other fields untouched |
| `BookingFlow.SetPassengerNoDoc` | client/src/pages/Agendamento.jsx:127-132 | the same for passenger i only; every other passenger is unchanged |
| `BookingFlow.NoDocToggleValidity` | client/src/pages/Agendamento.jsx:119-137 | after ticking, the responsible party is invalid only for a missing name or phone; after unticking it is always invalid |
| `BookingFlow.AddPassenger` | client/src/pages/Agendamento.jsx:57-62 | one invalid, empty passenger is appended after the kept list |
| `BookingFlow.RemovePassenger` | client/src/pages/Agendamento.jsx:64-66 | index i leaves the list, an out-of-range index changes nothing |
| `BookingFlow.RemoveBlocksSeatStep` | client/src/pages/Agendamento.jsx:57-66 | once seats match passengers, adding or removing a passenger disables the seat step's button again (line 493) |
| `BookingFlow.ValidFormNamesEverySeat` | client/src/pages/Agendamento.jsx:79-86 | when both steps may be left, every selected seat is bound to a non-empty passenger name |
| `BookingFlow.SentDocument` | client/src/pages/Agendamento.jsx:91-99 | the marker when "no document" is ticked, the typed document otherwise; it is empty exactly when the box is unticked and nothing was typed |
| `BookingFlow.ResponsiblePayload` | client/src/pages/Agendamento.jsx:91-94 | the posted responsible party differs from the form only in its document, which is the sent document |
| `BookingFlow.PassengersPayload` | client/src/pages/Agendamento.jsx:96-99 | each passenger is posted with its sent document and otherwise unchanged, order and count kept |
| `BookingFlow.BookingPayload` | client/src/pages/Agendamento.jsx:101-110 | the posted booking carries the event id, card, trip, notes, status "confirmado", the selected claims and the document-rewritten parties |
| `BookingFlow.ValidPayloadHasDocuments` | client/src/pages/Agendamento.jsx:88-99 | a form that passes the data step posts a non-empty document for everyone |
| `BookingFlow.PayloadKeepsValidity` | client/src/pages/Agendamento.jsx:134-141 | rewriting documents for the payload makes no valid form invalid nor the reverse |
| `BookingFlow.PayloadOfToggledForm` | client/src/pages/Agendamento.jsx:91-94 | a party whose box was ticked is posted exactly as the form holds it |
| `BookingFlow.OccupiedClaims` | client/src/pages/Agendamento.jsx:113-115 | the occupied list holds exactly the claims of the selected event's bookings (none without a selection) and its length is that event's claim count |
| `BookingFlow.OccupiedClaimsAppend` | client/src/pages/Agendamento.jsx:113-115 | a later booking of the selected event puts its claims after every earlier claim, so the list follows booking order; one of another event adds nothing |
| `BookingFlow.AvailableSeats` | client/src/pages/Agendamento.jsx:231-235 | free seats are the passenger seats minus the occupied list's length |
| `BookingFlow.AvailableAfterBooking` | client/src/pages/Agendamento.jsx:231-235 | a new booking of the event lowers the figure by its claim count; one of another event leaves it |
| `SeatMap.Columns` | client/src/components/agendamento/MapaAssentos.jsx:73-78 | the layout loop builds a first column with seat 2 before the aisle and seat 1 after it, then columns of four consecutive numbers from 3 |
| `SeatMap.DriverFlagOnlyOnSeatOne` | client/src/components/agendamento/MapaAssentos.jsx:132-136 | only the first column has a single seat after the aisle, and it is seat 1, the one drawn as the driver |
| `SeatMap.LayoutSeats` | client/src/components/agendamento/MapaAssentos.jsx:73-78 | the columns list 2, 1 and then every number from 3 up, in order |
| `SeatMap.EverySeatOnce` | client/src/components/agendamento/MapaAssentos.jsx:107-142 | the rendered buttons are seats 1..capacity, each once |
| `SeatMap.CaptionCountsPassengerSeats` | client/src/components/agendamento/MapaAssentos.jsx:146 | the caption's passenger count is the rendered seats minus the driver's |
| `SeatMap.SeatButton` | client/src/components/agendamento/MapaAssentos.jsx:31-56 | a button exists iff the number is non-zero and within capacity; it is the driver iff flagged or seat 1; occupied/selected iff some claim of that bus and seat; disabled iff driver or occupied |
| `SeatMap.Click` | client/src/components/agendamento/MapaAssentos.jsx:56 | a click reports (bus, seat) exactly when the button is shown, enabled and not the driver's |
| `SeatMap.DriverSeatDisabled` | client/src/components/agendamento/MapaAssentos.jsx:31-56 | seat 1 is always drawn, always the driver's, disabled and unclickable |
| `SeatMap.OtherClaimsDoNotBlock` | client/src/components/agendamento/MapaAssentos.jsx:14-17 | a claim on another bus or seat leaves a button as it was |
| `SeatMap.ClickKeepsSafe` | client/src/components/agendamento/MapaAssentos.jsx:55-56 | one click keeps a selection within the passenger count, duplicate-free, and made of drawn, free passenger seats |
| `SeatMap.SafeSelectionFromClicks` | client/src/pages/Agendamento.jsx:473-481 | any sequence of clicks on the maps from an empty selection yields such a selection |
| `SeatMap.ClicksKeepSafe` | client/src/pages/Agendamento.jsx:68-77 | any sequence of clicks preserves that invariant |
| `SeatMap.StaleSelectionAfterEventSwitch` | client/src/pages/Agendamento.jsx:241-243 | choosing another event keeps the selection, so a selection safe for one event can name a bus the next event does not have |
| `EditDialog.UpdatePassenger` | client/src/components/gerenciar/EditarAgendamentoDialog.jsx:31-35 | only the chosen field of passenger i takes the new value |
| `EditDialog.UpdateResponsible` | client/src/components/gerenciar/EditarAgendamentoDialog.jsx:120-157 | only the chosen field of the responsible party takes the new value |
| `EditDialog.SetTrip` | client/src/components/gerenciar/EditarAgendamentoDialog.jsx:87-110 | only the trip type changes |
| `EditDialog.UpdatePassengerUndo` | client/src/components/gerenciar/EditarAgendamentoDialog.jsx:31-35 | typing a field and restoring its old value gives back the booking |
| `EditDialog.AddPassenger` | client/src/components/gerenciar/EditarAgendamentoDialog.jsx:37-42 | an empty passenger is appended and no claim is added |
| `EditDialog.AddBreaksAlignment` | client/src/components/gerenciar/EditarAgendamentoDialog.jsx:37-42 | after an add, passengers and claims no longer pair one to one |
| `EditDialog.RemovePassenger` | client/src/components/gerenciar/EditarAgendamentoDialog.jsx:44-48 | index i leaves both the passengers and the claims, nothing else changes |
| `EditDialog.RemoveKeepsPairs` | client/src/components/gerenciar/EditarAgendamentoDialog.jsx:44-48 | every surviving passenger keeps the claim it was paired with |
| `EditDialog.UpdateClaim` | client/src/components/gerenciar/EditarAgendamentoDialog.jsx:50-54 | the chosen field of claim i becomes parseInt of the text, other claims untouched |
| `EditDialog.PickedOptionIsStored` | client/src/components/gerenciar/EditarAgendamentoDialog.jsx:251-276 | picking the option written String(k) stores the number k |
| `EditDialog.HeldSeats` | client/src/components/gerenciar/EditarAgendamentoDialog.jsx:58-61 | a seat is listed as held iff a claim of another booking holds it on that bus |
| `EditDialog.FreeSeats` | client/src/components/gerenciar/EditarAgendamentoDialog.jsx:56-67 | offered seats are 2..capacity that are the current seat or not held by another booking, ascending, never the driver's |
| `EditDialog.CurrentSeatOffered` | client/src/components/gerenciar/EditarAgendamentoDialog.jsx:64-66 | the claim's own passenger seat is always offered |
| `EditDialog.Retag` | client/src/pages/Gerenciar.jsx:77-83 | relabelling claims with other events keeps the claim and booking of each |
| `EditDialog.HeldSeatsIgnoreEvent` | client/src/components/gerenciar/EditarAgendamentoDialog.jsx:58-61 | the held list does not depend on the claims' events |
| `EditDialog.FreeSeatsIgnoreEvent` | client/src/components/gerenciar/EditarAgendamentoDialog.jsx:56-67 | nor does the offered list |
| `EditDialog.OtherEventBlocks` | client/src/components/gerenciar/EditarAgendamentoDialog.jsx:56-67 | a claim of another event on the same bus and seat removes that seat from the offer |
| `EditDialog.HandleSave` | client/src/components/gerenciar/EditarAgendamentoDialog.jsx:27-29 | the update goes out under the original booking's id with the working copy |
| `EditDialog.ChangesOf` | server/server.js:432-433 | the server reads trip, parties, claims, status and notes from the sent copy |
| `EditDialog.SaveStoresWorkingCopy` | client/src/pages/Gerenciar.jsx:90-92 | saving stores the working copy in the edited row and leaves every other row |
| `ManageBookings.ListedBookings` | client/src/pages/Gerenciar.jsx:66-74 | listed bookings are, in order, exactly those of the chosen event whose card or non-empty names contain the search ignoring case |
| `ManageBookings.NoFilterListsAll` | client/src/pages/Gerenciar.jsx:66-74 | no event and no search lists every booking |
| `ManageBookings.SearchIgnoresCase` | client/src/pages/Gerenciar.jsx:68-71 | the search ignores the case of the text typed |
| `ManageBookings.EventFilterNarrows` | client/src/pages/Gerenciar.jsx:67 | choosing an event never adds a booking |
| `ManageBookings.TagClaims` | client/src/pages/Gerenciar.jsx:78-82 | each claim of a booking is tagged with its booking and event id, in order |
| `ManageBookings.AllClaims` | client/src/pages/Gerenciar.jsx:77-83 | every tagged claim comes from some booking; the total is the sum of claim counts |
| `ManageBookings.AllClaimsAreTagged` | client/src/pages/Gerenciar.jsx:77-83 | a tagged claim names a claim of the booking it is tagged with |
| `ManageBookings.AllClaimsOfEvent` | client/src/pages/Gerenciar.jsx:77-83 | the tagged claims of one event, untagged, are the wizard's occupied list for it |
| `ManageBookings.ConfirmDelete` | client/src/pages/Gerenciar.jsx:98-102 | a delete is sent iff a non-zero id is pending, and it is that id |
| `Mapping.CpfMask` | client/src/pages/Mapeamento.jsx:23 | eleven digits become ddd.ddd.ddd-dd |
| `Mapping.CnpjMask` | client/src/pages/Mapeamento.jsx:24 | fourteen digits become dd.ddd.ddd/dddd-dd |
| `Mapping.DigitsOfCpfMask` | client/src/pages/Mapeamento.jsx:23 | the CPF mask keeps the digits: stripping separators gives them back |
| `Mapping.DigitsOfCnpjMask` | client/src/pages/Mapeamento.jsx:24 | the same for the CNPJ mask |
| `Mapping.FormatDocument` | client/src/pages/Mapeamento.jsx:20-27 | an empty document reads "Não informado"; eleven or fourteen digits give a mask of 14 or 18 characters holding the same digits; anything else is shown as typed |
| `Mapping.FormatKeepsDigits` | client/src/pages/Mapeamento.jsx:20-27 | formatting a document keeps exactly its digits |
| `Mapping.MaskUsesOnlyDigits` | client/src/pages/Mapeamento.jsx:22-24 | a masked document depends only on its digits |
| `Mapping.NothingSelectedNoRows` | client/src/pages/Mapeamento.jsx:157-159 | before an event is chosen no row is shown |
| `Mapping.PassengerDoc` | client/src/pages/Mapeamento.jsx:164-167 | the document of the first passenger with the claim's name unless empty, else the claim's own |
| `Mapping.RowsOf` | client/src/pages/Mapeamento.jsx:160-170 | one row per claim of a booking, carrying its name, document, card and trip |
| `Mapping.OccupiedRows` | client/src/pages/Mapeamento.jsx:156-172 | rows are exactly those of bookings whose id reads as the selected text |
| `Mapping.OccupiedRowsAreOccupiedClaims` | client/src/pages/Mapeamento.jsx:156-172 | for a chosen event the rows carry the wizard's occupied claims, same order and count |
| `Mapping.SelectedEvent` | client/src/pages/Mapeamento.jsx:151-153 | the chosen event is a listed one whose id reads as the selection, or none matches |
| `Mapping.TotalSeats` | client/src/pages/Mapeamento.jsx:175-177 | the passenger seats of the chosen event, 0 without one |
| `Mapping.GroupByBus` | client/src/pages/Mapeamento.jsx:29-36 | one group per bus key present (missing bus as "N/I"), holding its rows in order |
| `Mapping.GroupSizesAddUp` | client/src/pages/Mapeamento.jsx:29-36 | grouping neither loses nor duplicates a row |
| `Mapping.BusNumbers` | client/src/pages/Mapeamento.jsx:29-36 | the bus numbers present among the rows, each once |
| `Mapping.SortedBusNumbers` | client/src/pages/Mapeamento.jsx:370-371 | those numbers in strictly ascending order |
| `Mapping.KeyList` | client/src/pages/Mapeamento.jsx:370-371 | numbered keys in order, then "N/I" |
| `Mapping.DisplayKeys` | client/src/pages/Mapeamento.jsx:370-371 | every group is shown once, numbered groups first and ascending |
| `Mapping.DisplayedRowsAddUp` | client/src/pages/Mapeamento.jsx:370-375 | the shown groups hold every row exactly once |
| `Mapping.PassengersByBus` | client/src/pages/Mapeamento.jsx:184-193 | all groups, or exactly the chosen bus's key with its rows (possibly none) |
| `Mapping.SortedRows` | client/src/pages/Mapeamento.jsx:373-375 | a group's rows sorted by seat, a missing seat as 0, as a permutation |
| `Mapping.DocumentCell` | client/src/pages/Mapeamento.jsx:413-417 | the table's document cell: "Não informado" for no or an empty document, the digits of the row's document kept, other lengths than 11 and 14 shown as typed |
| `Mapping.DocumentCellOfClaim` | client/src/pages/Mapeamento.jsx:164-167 | the cell of a claim is the mask of the first same-named passenger's non-empty document, else of the claim's own document |
| `PassengerLegend.WizardMarkerShownVerbatim` | client/src/components/mapeamento/LegendaPassageiros.jsx:8 | the wizard's unaccented marker is shown as typed; only the accented one reads "Não Informado" |
| `PassengerLegend.LegendDocument` | client/src/components/mapeamento/LegendaPassageiros.jsx:7-16 | a missing or empty document and the accented marker read "Não Informado"; eleven digits are masked as the mapping table masks them; anything else is shown as typed |
| `PassengerLegend.CnpjShownVerbatim` | client/src/components/mapeamento/LegendaPassageiros.jsx:11-15 | a fourteen-digit document is shown as typed, where the mapping table masks it |
| `PassengerLegend.CpfAgreesWithMapping` | client/src/components/mapeamento/LegendaPassageiros.jsx:11-13 | an eleven-digit document is masked as the mapping table masks it |
| `PassengerLegend.LegendKeepsDigits` | client/src/components/mapeamento/LegendaPassageiros.jsx:7-16 | the legend keeps exactly the digits of the document |
| `PassengerLegend.LegendRows` | client/src/components/mapeamento/LegendaPassageiros.jsx:166-168 | with a truthy bus, the rows of that bus in order; otherwise every row |
| `PassengerLegend.LegendMatchesBusGroup` | client/src/components/mapeamento/LegendaPassageiros.jsx:166-168 | for a non-zero bus these are the mapping page's group of that bus |
| `PassengerLegend.LegendOrder` | client/src/components/mapeamento/LegendaPassageiros.jsx:171 | the same rows sorted by seat |
| `PassengerLegend.Legend` | client/src/components/mapeamento/LegendaPassageiros.jsx:191-217 | the placeholder iff no row; the list view iff print mode with rows; the cards otherwise, sorted |
| `PassengerLegend.EmptyBusShowsPlaceholder` | client/src/components/mapeamento/LegendaPassageiros.jsx:191-199 | a bus nobody sits on shows the placeholder |
| `PassengerLegend.DocumentShown` | client/src/components/mapeamento/LegendaPassageiros.jsx:58 | the legend's document text: "Não Informado" for no or an empty document, the row's digits kept |
| `PassengerLegend.LegendCellAgainstTable` | client/src/components/mapeamento/LegendaPassageiros.jsx:115 | for a CPF the legend and the mapping table show the same text; for a CNPJ the legend shows it as typed while the table masks it |
| `BusView.SeatInfo` | client/src/components/mapeamento/OnibusVisual.jsx:17-18 | the first row on that bus and seat, or none exists |
| `BusView.TooltipOf` | client/src/components/mapeamento/OnibusVisual.jsx:71-76 | the tooltip names the passenger and shows a document only when it is non-empty |
| `BusView.SeatCell` | client/src/components/mapeamento/OnibusVisual.jsx:32-81 | cells for 1..capacity, all disabled; driver iff flagged or seat 1; occupied iff some row holds the seat, and then it has the first such row's tooltip |
| `BusView.SameGridAsWizard` | client/src/components/mapeamento/OnibusVisual.jsx:84-87 | the picture draws seats 1..capacity once each, like the wizard's map |
| `BusView.DriverSeatDrawn` | client/src/components/mapeamento/OnibusVisual.jsx:33-34 | seat 1 is always drawn as the driver's, occupied iff a row holds it |
| `BusView.OtherBusRowsIgnored` | client/src/components/mapeamento/OnibusVisual.jsx:17-18 | a row of another bus changes no cell |
| `EventCard.CardOccupiedIsOccupiedList` | client/src/components/dashboard/EventoCard.jsx:12-13 | the card's count equals the wizard's occupied list and the mapping page's row count for the event |
| `EventCard.CardPercent` | client/src/components/dashboard/EventoCard.jsx:14 | the unrounded percentage: occupied × 100 / seats, 0 without seats |
| `EventCard.SeatsPerBus` | client/src/components/dashboard/EventoCard.jsx:85 | the per-bus label times the buses is the card's total |
| `EventCard.CardPercentNearRounded` | client/src/components/dashboard/EventoCard.jsx:11-14 | the card's bar is within half a point of the rounded figure |
| `EventCard.MappingRoundsCardPercent` | client/src/pages/Mapeamento.jsx:175-181 | the mapping page's percentage is the card's rounded |
| `Domain.BookableSeats` | client/src/components/dashboard/EventoCard.jsx:11 | the passenger seats are never negative for a real event, none without buses or with one-seat buses, and at least one per bus and one per passenger seat of a bus otherwise |
| `Domain.OccupiedCount` | client/src/components/dashboard/EventoCard.jsx:12-13 | the summed claim counts of the event's bookings are the length of their concatenated claims |
| `Domain.RoundedPercent` | client/src/pages/Dashboard.jsx:140 | the exact ratio 100 × a / t rounded to the nearest integer, halves up, within 0..100 when a ≤ t; the page rounds the double `(a / t) * 100` instead (see Left out) |
| `Domain.OccupancyPercent` | client/src/pages/Mapeamento.jsx:178-181 | that figure when there are seats, 0 otherwise |
| `Domain.EventBookings` | client/src/components/dashboard/EventoCard.jsx:12 | exactly the bookings of the event |
| `Dashboard.Summary` | client/src/pages/Dashboard.jsx:76-78 | seats are summed over events, occupied and passengers over bookings, open events counted, percentage as `Domain.OccupancyPercent` rounds it |
| `Dashboard.NewEventAddsItsSeats` | client/src/pages/Dashboard.jsx:76 | a new event adds its passenger seats to the total |
| `Dashboard.OccupiedSplitsByEvent` | client/src/pages/Dashboard.jsx:77 | with distinct ids and known events, the occupied total is the sum of the cards' counts |
| `Dashboard.TabEvents` | client/src/pages/Dashboard.jsx:199-213 | "Todos" shows every event, "Abertos" and "Fechados" exactly those with that status, in order |
| `Dashboard.TabsSplitEvents` | client/src/pages/Dashboard.jsx:199-213 | open, closed and other events partition the list |
| `Dashboard.CancelledOnlyUnderAll` | client/src/pages/Dashboard.jsx:199-213 | a cancelled event appears only under "Todos" |
| `Dashboard.HandleSave` | client/src/pages/Dashboard.jsx:61-67 | an update under the edited event's id iff one is being edited, else a creation, with the form's data |
| `Lookup.Search` | client/src/pages/Consulta.jsx:36-60 | the earliest matching booking, or none matches |
| `Lookup.OtherModeFindsNothing` | client/src/pages/Consulta.jsx:41-55 | an unknown search type finds nothing |
| `Lookup.SearchIgnoresCase` | client/src/pages/Consulta.jsx:42-49 | card and name searches ignore the case of the term |
| `Lookup.CardHitIsListed` | client/src/pages/Consulta.jsx:42-44 | a booking found by card is also listed by the management search for that text |
| `Lookup.EmptyNameSearchFindsFirst` | client/src/pages/Consulta.jsx:119 | Enter with an empty name search returns the first booking |
| `Lookup.EventOf` | client/src/pages/Consulta.jsx:62 | the listed event of the booking, or none has its id |
| `Lookup.Show` | client/src/pages/Consulta.jsx:135-145 | the pass iff a result with a known event; the notice iff a term is typed, no search is running and no result is held, including before any search |
| `Lookup.OrphanShowsNothing` | client/src/pages/Consulta.jsx:135-145 | a booking of an unlisted event shows neither |
| `Lookup.SearchButtonEnabled` | client/src/pages/Consulta.jsx:123 | the button is disabled for an empty term and while a search runs |
| `Lookup.NoticeIffButtonEnabled` | client/src/pages/Consulta.jsx:143 | the notice shows exactly when no result is held and the button would be enabled |
| `Lookup.EnterBypassesButton` | client/src/pages/Consulta.jsx:119-123 | the empty term disables the button, but Enter still searches and finds the first booking by name |
| `RouteGuard.Decide` | client/src/components/layout/ProtectedRoute.jsx:16-82 | each outcome iff its condition, checked in order: loading, no account, admin-only, missing designation |
| `RouteGuard.AdminAlwaysAllowed` | client/src/components/layout/ProtectedRoute.jsx:42-62 | an admin passes every page |
| `RouteGuard.NoRequirementAdmitsEveryone` | client/src/components/layout/ProtectedRoute.jsx:58 | a page without requirements admits every account |
| `RouteGuard.GrantKeepsAccess` | client/src/components/layout/ProtectedRoute.jsx:58-64 | one more designation never revokes access |
| `RouteGuard.MissingDesignationsAreEmpty` | client/src/components/layout/ProtectedRoute.jsx:59 | a missing designation list is judged as empty |
| `RouteGuard.ViewerReachesReadOnlyPages` | client/src/pages/Gerenciar.jsx:233 | a viewer reaches the dashboard and the mapping page but not management |
| `Menu.HasAccess` | client/src/Layout.jsx:84-90 | public entries for everyone, nothing else signed out; for a non-empty requirement exactly the page guard's decision; an entry with no requirement hidden from a non-admin |
| `Menu.VisibleItems` | client/src/Layout.jsx:84-92 | the entries the account may open, in menu order |
| `Menu.AnonymousEntries` | client/src/Layout.jsx:84-92 | signed out, the menu is the two public entries, in table order |
| `Menu.AnonymousSeesPublicEntries` | client/src/Layout.jsx:84-92 | without an account only "Agendar Viagem" and "Consultar Reserva" are shown |
| `Menu.AdminSeesEverything` | client/src/Layout.jsx:87 | an admin sees all five entries |
| `Menu.ViewerAccess` | client/src/Layout.jsx:37-45 | a viewer-only account may open every entry but the management one |
| `Menu.ViewerEntries` | client/src/Layout.jsx:84-92 | its menu is the table without the management entry, in order |
| `Menu.ViewerMissesManagement` | client/src/Layout.jsx:37-46 | a viewer sees every entry but "Gerenciar Reservas" |
| `Menu.MenuAgreesWithPages` | client/src/Layout.jsx:37-43 | each guarded entry is shown iff its page admits the account |
| `Menu.ShowAdminLink` | client/src/Layout.jsx:93 | the administration group is shown to exactly the accounts an admin-only guard admits |
| `AccessConfig.PageOpen` | client/src/pages/ConfiguracaoAcesso.jsx:60-72 | the page body opens for exactly the accounts that see the administration link, those an admin-only guard admits; the route itself has no guard |
| `AccessConfig.FilterUsers` | client/src/pages/ConfiguracaoAcesso.jsx:75-78 | exactly the users whose name or email contains the term ignoring case, in order |
| `AccessConfig.EmptySearchListsEveryone` | client/src/pages/ConfiguracaoAcesso.jsx:75-78 | an empty search lists every user |
| `AccessConfig.StartEditing` | client/src/pages/ConfiguracaoAcesso.jsx:80-83 | editing starts from the user's own list, the empty one when missing |
| `AccessConfig.Toggle` | client/src/pages/ConfiguracaoAcesso.jsx:94-100 | the ticked designation flips membership; others are kept; a new one goes last |
| `AccessConfig.ToggleTwiceRestores` | client/src/pages/ConfiguracaoAcesso.jsx:94-100 | ticking and unticking restores the list |
| `AccessConfig.ToggleTwiceSameSet` | client/src/pages/ConfiguracaoAcesso.jsx:94-100 | unticking and ticking restores which designations are ticked |
| `AccessConfig.ToggleKeepsDistinct` | client/src/pages/ConfiguracaoAcesso.jsx:94-100 | toggling never duplicates a designation |
| `AccessConfig.SaveRequest` | client/src/pages/ConfiguracaoAcesso.jsx:85-92 | a request iff a user is edited, carrying its id and the ticked list |
| `AccessConfig.AfterSave` | client/src/pages/ConfiguracaoAcesso.jsx:53-54 | a save closes the editor and clears the ticks |
| `AccessConfig.SaveChangesOnlyDesignations` | client/src/pages/ConfiguracaoAcesso.jsx:85-92 | an admin's save rewrites the edited user's designations to the ticked list and nothing else |
| `AccessConfig.BadgeCount` | client/src/pages/ConfiguracaoAcesso.jsx:138 | a badge counts at most every user, and 0 iff nobody holds it |
| `AccessConfig.BadgeCountAppend` | client/src/pages/ConfiguracaoAcesso.jsx:138 | one more user adds one to exactly the badges it holds |
| `AccessConfig.BadgeHolderSeesDashboard` | client/src/pages/ConfiguracaoAcesso.jsx:21-25 | whoever a badge counts sees the Dashboard entry |
| `LoginForm.PasswordScore` | client/src/pages/Login.jsx:125-133 | 0..4; 0 iff empty; 4 iff a `length` of eight UTF-16 code units and three kinds, or all four kinds; otherwise kinds, plus one from that length |
| `LoginForm.SupplementaryCharactersCountTwice` | client/src/pages/Login.jsx:127 | four emoji have a `length` of eight, so they score 2: the length and the symbol |
| `LoginForm.ScoreNeverDrops` | client/src/pages/Login.jsx:125-133 | typing a character never lowers the score |
| `LoginForm.StrengthOf` | client/src/pages/Login.jsx:311-317 | red iff the score is at most 1, the last colour iff 4 |
| `LoginForm.OneKindIsWeak` | client/src/pages/Login.jsx:125-133 | a short all-lower-case password is weak |
| `LoginForm.CanSubmit` | client/src/pages/Login.jsx:135-140 | always a non-empty email; signing in also needs a password; creating an account also needs a name, a password and an equal confirmation |
| `LoginForm.Submit` | client/src/pages/Login.jsx:142-158 | a call iff the mode's fields allow it, of that mode, carrying the typed email, password and name |
| `LoginForm.ShowMismatch` | client/src/pages/Login.jsx:342 | the warning shows iff a confirmation was typed and differs, and then the account cannot be created |
| `LoginForm.SubmittableShowsNoMismatch` | client/src/pages/Login.jsx:342-346 | a form that may register never shows the mismatch warning |
| `LoginForm.SentRegisterBody` | client/src/api/apiClient.js:29-30 | the page's one-object call posts a truthy `full_name` and no email or password |
| `LoginForm.CorrectedRegisterBody` | client/src/api/apiClient.js:29-30 | the intended three-argument call posts the typed name, email and password |
| `LoginForm.EverySignUpIsIncomplete` | client/src/pages/Login.jsx:153 | as written, the server refuses every sign-up as incomplete and stores nothing (server/server.js:220-222) |
| `LoginForm.RegistrationIsComplete` | server/server.js:219-243 | corrected: a sign-up the form lets through is never incomplete; refused iff its email is taken, stored otherwise |
| `LoginForm.ErrorText` | client/src/pages/Login.jsx:160-161 | the thrown message, or the fallback text when it is empty; never empty |
| `LoginForm.HandleSubmit` | client/src/pages/Login.jsx:142-165 | nothing iff the form may not be sent; any failure shows the error text; a reset request always fails, since the client defines no such call |
| `LoginForm.SubmitEnabled` | client/src/pages/Login.jsx:364 | disabled while a request is under way; otherwise enabled iff `canSubmit`, that is iff `handleSubmit` would send a request; the browser's own checks come after the press |
| `LoginForm.BrowserAccepts` | client/src/pages/Login.jsx:233-291 | the form's constraint validation: the shown `required` fields non-empty, the password (outside the reset mode) at least `minLength={8}` code units, the `type="email"` field accepted |
| `LoginForm.PressSubmit` | client/src/pages/Login.jsx:364 | nothing iff the button is disabled; blocked iff enabled and the browser refuses the fields; otherwise `handleSubmit`'s outcome, never ignored |
| `LoginForm.ShortPasswordBlocked` | client/src/pages/Login.jsx:289-290 | when signing in or creating an account, a password under eight code units never reaches `handleSubmit` |
| `LoginForm.EnabledButtonIsHandled` | client/src/pages/Login.jsx:142-146 | with no request under way, the button is enabled iff `handleSubmit` would not ignore the form; a press reaches `handleSubmit` iff the button is enabled and the browser accepts the fields |
| `LoginForm.SignUpAlwaysFails` | client/src/pages/Login.jsx:152-155 | as written, every submitted sign-up ends in the error text, and so does every press the browser lets through |
| `LoginForm.SignInWithRightPassword` | client/src/pages/Login.jsx:148-151 | a local account's email with its password reaches the dashboard, and a press gets there when the password has a `length` of at least eight and the email passes the browser; a shorter password or a refused email is stopped before `handleSubmit`; a wrong password shows the error |
| `Server.TakeWord` | server/server.js:183 | the text up to the first space |
| `Server.TokenOf` | server/server.js:183-184 | a "Bearer " header's token, else a non-empty cookie, else none |
| `Server.Authenticate` | server/server.js:180-192 | 401 iff no token, 403 iff it fails to verify, otherwise the verified claims |
| `Server.BearerHeaderWins` | server/server.js:183-184 | with a Bearer header the cookie is never consulted |
| `Server.EmptyBearerRefused` | server/server.js:183-186 | a bare "Bearer " header is refused even next to a good cookie |
| `Server.LocalLogin` | server/server.js:197-216 | not found iff no local user has the email; otherwise the first local row decides: social without a password, signed in as that row with a matching one, refused with any other |
| `Server.LocalAccountLogin` | server/server.js:197-216 | with unique emails a local account's own email reaches it: social, signed in, or wrong password as its password and the typed one decide |
| `Server.Register` | server/server.js:219-243 | Incomplete iff a name (`full_name`, else `name`), the email or the password is missing; otherwise EmailTaken iff a user has the email, changing nothing, and Registered iff none has, adding a local "user" with no designations under the next id |
| `Server.LinkById` | server/server.js:301-304 | only the row with that id becomes a Google account |
| `Server.GoogleCallback` | server/server.js:278-328 | no code changes nothing; a linked subject is reused; an email match is linked; otherwise a new user is added |
| `Server.PutUser` | server/server.js:339-343 | only the designations of the row with that id change, a missing list as empty |
| `Server.PutUserKeepsRole` | server/server.js:339-343 | the update never changes id, role, email, password or provider |
| `Server.AccountOf` | server/server.js:246-251 | the profile carries the row's id, name, email, role and designations |
| `Server.AnyAccountCanGrantItself` | server/server.js:339-343 | as written, a "user" account grants itself every designation and then passes the management page's guard |
| `Server.AdminPutUser` | server/server.js:339-343 | corrected update: a non-admin caller changes nothing; an admin's update is the user update |
| `Server.OnlyAdminsGrant` | server/server.js:339-343 | corrected: a designation change implies an admin caller and the edited row, as the admin-only access page (client/src/pages/ConfiguracaoAcesso.jsx:60-72) intends |
| `Server.SeedAdmin` | server/server.js:124-138 | the admin is added under the next id only when no user has its email |
| `Server.SeedIdempotent` | server/server.js:124-138 | restarting adds no second admin |
| `Server.ReplaceEvent` | server/server.js:373-391 | only the event with that id is rewritten, keeping its id |
| `Server.CreateEvent` | server/server.js:354-371 | the event is appended under the next id, which is returned |
| `Server.UpdateEvent` | server/server.js:373-391 | the update rewrites only the events table |
| `Server.DeleteEvent` | server/server.js:393-396 | the event and, by the cascade, its bookings are removed, the rest keeping their order; the users and the id counters are unchanged |
| `Server.CreateBooking` | server/server.js:410-430 | refused iff the event is missing; otherwise stored as sent, claims included, under the next id |
| `Server.DoubleBookingAccepted` | server/server.js:410-430 | two bookings claiming the same seat are both stored |
| `Server.UpdateBooking` | server/server.js:432-445 | only the row with that id changes, keeping its event and card; the id counters are unchanged |
| `Server.DeleteBooking` | server/server.js:447-450 | exactly the booking with that id is removed, the rest keeping their order; the id counters are unchanged |
| `Server.AddUserKeepsValid` | server/server.js:73-78 | a new user under the next id with a new email keeps the keys and unique emails |
| `Server.RegisterKeepsValid` | server/server.js:219-243 | registration keeps the store's constraints |
| `Server.SeedKeepsValid` | server/server.js:124-138 | seeding keeps them |
| `Server.GoogleKeepsValid` | server/server.js:278-328 | the Google callback keeps them |
| `Server.PutUserKeepsValid` | server/server.js:339-343 | the user update keeps them |
| `Server.AdminPutUserKeepsValid` | server/server.js:339-343 | so does the admin-only update |
| `Server.MergedAccountLosesPasswordLogin` | server/server.js:199-204 | a user merged into a Google account can no longer sign in with a password |
| `Server.CreateEventKeepsValid` | server/server.js:354-371 | creating an event keeps the constraints |
| `Server.UpdateEventKeepsValid` | server/server.js:373-391 | updating one keeps them |
| `Server.DeleteEventKeepsValid` | server/server.js:393-396 | deleting one keeps them and leaves no booking pointing at it |
| `Server.CreateBookingKeepsValid` | server/server.js:410-430 | a stored booking keeps the constraints |
| `Server.UpdateBookingKeepsValid` | server/server.js:432-445 | a booking update keeps them |
| `Server.DeleteBookingKeepsValid` | server/server.js:447-450 | a booking delete keeps them |
| `Server.DashboardAgreesWithCards` | server/server.js:103-116 | in any store the server can reach, the dashboard's occupied total is the sum of the cards' counts |
| `Text.ParseInt` | client/src/components/gerenciar/EditarAgendamentoDialog.jsx:52 | empty text and text starting with neither space, sign nor digit are NaN; a run of digits reads as its decimal value |
| `Text.IntToString` | client/src/pages/Mapeamento.jsx:152 | a leading minus iff the number is negative; otherwise only digits |
| `Text.Utf16Length` | client/src/pages/Login.jsx:127 | JavaScript's `length`: between the character count and twice it, and equal to it iff every character is in the BMP |
| `Text.ParseIntOfIntToString` | client/src/components/gerenciar/EditarAgendamentoDialog.jsx:53 | parseInt reads back String(n) as n, negatives included |
| `Text.IntToStringInjective` | client/src/pages/Mapeamento.jsx:152 | two ids read the same as text iff they are equal |

## Left out

- Rendering, styling, animation, printing and the PDF of the boarding pass are left out: they compute nothing the model states.
- Dates and times are left out, and so is the card number built from `Date.now()`. The card number is an input of `BookingFlow.BookingPayload`.
- Query caching (react-query), invalidation, spinners and the 500 ms `setTimeout` of the lookup are left out: each is a delay, not a different result.
- bcrypt, JWT signing and verification, and Google's token exchange are left out as foreign calls. They appear as parameters: `matches`, `hash`, `verify` and the `GooglePayload` value.
- SQLite I/O, table creation and migrations, cookies and logout are left out; the store is a value.
- Unhandled exceptions that answer 500 are left out. The one database refusal modelled is the foreign key on `evento_id`.
- The event status sent as `undefined` is stored as NULL rather than the column default `aberto`; this is not modelled. Event columns are stored as sent.
- Listing order (`ORDER BY data_inicio DESC`, `created_date DESC`) is not modelled. Lists keep their stored order.
- `/api/auth/me` answering 404 for a deleted user is left out. `Server.AccountOf` gives the profile of an existing row.
- The JavaScript `null`/`undefined` shapes are not modelled. Missing bus and seat numbers and documents are `Option`s. Names and emails are always strings. The optional chaining on `full_name` and `email` is thus not modelled.
- The management page's event filter compares the booking's `evento_id` with the select's value using `===`. The model assumes the select hands back the id as a number.
- `Text.Lower` folds ASCII letters only; Unicode case folding is not modelled.
- LoginForm.BrowserAccepts: the browser's email syntax check of `type="email"` is the parameter `emailOk`, and the browser's trimming of that field's value is not modelled.
- The passenger legend is imported by the mapping page but never rendered there. It is modelled as the component it is.
- Mapping.SortedRows: the stability of JavaScript's sort (rows with equal seats keep their order) is not stated, only the order and the permutation.
- PassengerLegend.LegendOrder: the same; stability is not stated.
- Mapping.DisplayKeys: `Object.keys` lists integer keys ascending before "N/I", and the comparator `Number(a) - Number(b)` is NaN for "N/I". The model fixes "N/I" last, as those engines place it.
- PassengerLegend.LegendOrder: the comparator `a.assento - b.assento` gives NaN for a missing seat; the model sorts a missing seat as 0.
- The Google redirect of the login page is left out: it is a page change.
- LoginForm.HandleSubmit: the reset branch calls `api.requestPasswordReset`, which the API client does not define. The call throws a type error and the `catch` shows its message. The model states that outcome; it does not model the mode switch that would follow a successful call.
- SeatMap.SafeSelectionFromClicks: it and `SeatMap.ClicksKeepSafe` hold for clicks on the maps of one event. Choosing another event (client/src/pages/Agendamento.jsx:241-243), or going back with "Voltar" and choosing again, keeps the selection; `SeatMap.StaleSelectionAfterEventSwitch` shows that the kept selection may then be unsafe.
- Domain.RoundedPercent: exact rational rounding of 100 × a / t replaces `Math.round` of the double `(a / t) * 100`; `Domain.OccupancyPercent` and `Dashboard.Summary` inherit this. The two differ when the double falls just below a half: 207 of 360 seats gives 57.49999999999999 as a double, so the page shows 57 where the model states 58 (likewise 23 of 40, 57 against 58, and 29 of 200, 14 against 15). Floating point is not modelled.
- Domain.OccupancyPercent: rounds as `Domain.RoundedPercent` does, so the mapping page's double rounding (client/src/pages/Mapeamento.jsx:180) is not modelled either.
- Dashboard.Summary: its percentage is `Domain.OccupancyPercent`, with the same exact rounding in place of the double rounding of client/src/pages/Dashboard.jsx:140.
- Text.ParseInt: decimal digits only. A `0x` prefix, which `parseInt` reads as hexadecimal, is not modelled.

## Findings

| source | as written | input that shows it | evidently intended | confidence | as-written member | corrected member |
|---|---|---|---|---|---|---|
| server/server.js:339-343 | `PUT /api/users/:id` checks only that the caller is signed in, not that it is an admin | a token of a "user" account sending `PUT /api/users/<own id>` with all three designations; the account then passes the guard of the management page | only an admin may change designations, as the access page shows itself to admins alone (client/src/pages/ConfiguracaoAcesso.jsx:60-72) | not executed | `Server.AnyAccountCanGrantItself` | `Server.OnlyAdminsGrant` |
| client/src/pages/Login.jsx:153 | `api.register({ name, email, password })` passes one object to `register(full_name, email, password)` (client/src/api/apiClient.js:29-30), so the body holds only `full_name` and the server answers "Dados incompletos" (server/server.js:222) | any sign-up, e.g. name "Ana", email "ana@x.org", password and confirmation "segredo1" | `api.register(name, email, password)`, which posts the three fields the server reads | not executed | `LoginForm.EverySignUpIsIncomplete` | `LoginForm.RegistrationIsComplete` |
