# Demandas dashboard — client-side logic

This project models the client-side logic of a ticket ("demanda") dashboard. The
dashboard is a React front end over a hosted Supabase backend. Every backend call is
replaced by its result, passed in as a parameter. What remains is modelled as pure
functions over immutable records, sequences, strings and integers:

- **Filters** (`filters.dfy`): the seven-field AND filter, where `"todos"` matches
  anything and the `area` filter compares against `area_responsavel`. Also the
  filter-state reducers (set one field, clear all, the status-card toggle handler),
  the active-filter count, the badge and the empty-list hint. The toggle handler is
  modelled as written but nothing reaches it: the status cards component reads only
  its `demandas` prop (`src/components/dashboard/StatusCards.jsx:37`) and ignores the
  `onStatusClick` and `selectedStatus` the dashboard passes, so clicking a card
  does nothing.
- **Dashboard data** (`status_cards.dfy`, `option_lists.dfy`, `dashboard.dfy`):
  - per-status counts and the four status cards;
  - the deduplicated, sorted agency, client and responsible option lists;
  - replace-by-id after an update;
  - the local status patch of the open ticket.
- **Ticket forms** (`ticket_form.dfy`, `nova_demanda.dfy`, `editar_demanda.dfy`):
  - the creation form: initial values, input handling with option creation, and
    required-field validation;
  - the payload, and the one-notification-per-profile fan-out after creation;
  - the edit page: lookup by id, prefill defaults, validation order and the update
    payload.
- **Ticket display** (`ticket.dfy`, `demanda_card.dfy`, `demanda_list_item.dfy`,
  `urgent_timer.dfy`, `utils.dfy`):
  - the status fallback, the deadline area and the "Editado" marker;
  - the comment badge, the responsible-name chains and the card's edit snapshot;
  - both 24-hour countdowns;
  - the shared date formatter and page URL helper.
- **Comments and mentions** (`comentarios.dfy`, `mention_input.dfy`):
  - the send guard, trimming, append-on-success and author-only delete;
  - `@mention` detection before the cursor, suggestion filtering, key handling,
    and the splice that inserts the chosen name.
- **Pickers** (`creatable_select.dfy`, `responsible_selector.dfy`): case-insensitive
  search, the "create" entry, the trigger label, and select/clear/toggle.
- **Notifications** (`notificacao.dfy`, `notification_popup.dfy`,
  `notification_context.dfy`):
  - the notification table as an in-memory sequence of rows, with per-user list,
    unread count, mark-read, mark-all-read, create and delete;
  - the popup's local list and floored unread badge;
  - the toast list of the notification provider.
- **Routing** (`app.dfy`): the session-gated route table.

Shared helpers live in `values.dfy` and `text.dfy`:

- `Nullable` stands for a JavaScript string that may be null or undefined.
- `Truthy` is JavaScript truthiness on such a value.
- `text.dfy` has `toLowerCase`, `trim`, `includes`, `substring`, `padStart`, `String(n)`
  and the default sort order.

`seqs.dfy` has `filter`, counting and subsequence.

Three behaviours of the code that are easy to misread, and that the model follows:

- The toast helpers `notify.*` always pass a `duration` key. An omitted duration
  is therefore stored on the toast as undefined, overriding the provider's 5000
  default (`NotificationContext.Notify`). The toast component's own `duration = 5000`
  parameter default then applies, so such a toast still closes after 5000 ms
  (`NotificationContext.DismissAfter`, `NotificationContext.NotifyDismissal`).
- The edit page's title and description checks call `trim` on the field. A null
  field throws, and the catch sets "Erro ao atualizar demanda" (`EditarDemanda.Submit`).
- `handleStatusChange` patches the open ticket whatever its id (`Dashboard.PatchSelected`).

## Model

| member | source | states |
|---|---|---|
| Filters.Filtered | src/pages/Dashboard.jsx:180-189 | The filtered list is an order-preserving subsequence of the tickets, a ticket is kept iff it matches all seven filters, and its length is the number of matching tickets |
| Filters.MatchesIffEveryField | src/pages/Dashboard.jsx:181-188 | A ticket matches iff each of the seven fields is "todos" or equals the ticket's column; `area` is compared with `area_responsavel` |
| Filters.FilteredInitial | src/pages/Dashboard.jsx:31-39 | With the initial all-"todos" filters the filtered list is the whole input list |
| Filters.FilteredSingleField | src/pages/Dashboard.jsx:180-189 | With one concrete filter and the rest "todos", exactly the tickets whose column equals that value are kept |
| Filters.NarrowingShrinks | src/pages/Dashboard.jsx:188 | Changing a "todos" filter to a concrete value yields a subsequence of the previous result, no longer than it |
| Filters.Set | src/pages/Dashboard.jsx:169-171 | `handleFiltroChange(k, v)` sets field k to v and leaves the other six unchanged |
| Filters.Limpar | src/pages/Dashboard.jsx:173-178 | Clearing sets all seven fields to "todos", so the active count is 0 |
| Filters.LimparIdempotent | src/pages/Dashboard.jsx:173-178 | Clearing twice equals clearing once, and after clearing the filter keeps every ticket |
| Filters.StatusClick | src/pages/Dashboard.jsx:159-167 | The handler as written (unreachable, since the status cards ignore it): the selected status resets the selection to '' and the status filter to "todos"; any other status sets both to it; no other filter changes |
| Filters.StatusClickTwice | src/pages/Dashboard.jsx:159-167 | Applying the handler twice for the same new status ends unselected, with the status filter back to "todos" |
| Filters.ActiveCount | src/components/dashboard/FiltrosDemandas.jsx:8 | The active-filter count lies between 0 and the seven fields |
| Filters.ActiveCountZeroIffAllTodos | src/components/dashboard/FiltrosDemandas.jsx:8 | The active count is 0 iff every filter is "todos" |
| Filters.Badge | src/components/dashboard/FiltrosDemandas.jsx:16-20 | The badge is shown iff the count is positive, reading "1 ativo" for one and "N ativos" otherwise |
| Filters.BadgeHiddenIffCleared | src/components/dashboard/FiltrosDemandas.jsx:111-121 | The badge and the "Limpar" button are hidden iff every filter is "todos" |
| Filters.EmptyHint | src/pages/Dashboard.jsx:271 | The empty-list hint asks to adjust the filters iff some filter is not "todos" |
| StatusCards.StatusCounts | src/components/dashboard/StatusCards.jsx:38-41 | The count under each status key equals the number of tickets with that status, and the keys are exactly the statuses present |
| StatusCards.CountsSumToTotal | src/components/dashboard/StatusCards.jsx:38-41 | The counts over all keys add up to the number of tickets |
| StatusCards.Cards | src/components/dashboard/StatusCards.jsx:45-68 | Exactly the four configured statuses are shown, in config order, each with its ticket count |
| StatusCards.Unit | src/components/dashboard/StatusCards.jsx:68 | The unit reads "demanda" iff the count is 1 |
| StatusCards.EmptyStatusShowsZero | src/components/dashboard/StatusCards.jsx:46 | A configured status with no tickets shows 0 "demandas" |
| OptionLists.Distinct | src/pages/Dashboard.jsx:75-77 | The unique list has no duplicates and holds exactly the truthy values |
| OptionLists.SortedOptions | src/pages/Dashboard.jsx:79-81 | The option list is strictly sorted, duplicate-free, and holds exactly the truthy values |
| OptionLists.SortedUnique | src/pages/Dashboard.jsx:79-81 | Two strictly sorted lists with the same elements are equal, so the sorted option list is determined by the set of values |
| Dashboard.LoadOptions | src/pages/Dashboard.jsx:75-81 | Each option list is sorted, duplicate-free, and holds a value iff it is non-empty and some ticket has it |
| Dashboard.ReplaceById | src/pages/Dashboard.jsx:289 | `onUpdate` keeps the length and the ids, replaces every ticket with the updated id, and leaves the others unchanged |
| Dashboard.ReplaceUnknownId | src/pages/Dashboard.jsx:289 | An update whose id is not in the list changes nothing |
| Dashboard.ReplaceIdempotent | src/pages/Dashboard.jsx:289 | Applying the same update twice equals applying it once |
| Dashboard.PatchSelected | src/pages/Dashboard.jsx:137-145 | The open ticket, if any, gets the new status and nothing else changes; with none open, none is opened |
| TicketForm.SetField | src/pages/EditarDemanda.jsx:124-129 | Setting a form field changes exactly that field |
| TicketForm.Choices | src/pages/EditarDemanda.jsx:71-74 | The choice lists have distinct values, label equals value, and hold exactly the truthy column values |
| NovaDemanda.Initial | src/pages/NovaDemanda.jsx:29-56 | The initial form has prioridade "media" and every other field "", no error, and duplicate-free options |
| NovaDemanda.AddChoice | src/pages/NovaDemanda.jsx:59-68 | A value is appended only if it is truthy and not already present; distinct option lists stay distinct |
| NovaDemanda.HandleInputChange | src/pages/NovaDemanda.jsx:58-76 | Exactly the named field is set, the error is cleared, and options grow only for agencia and cliente_final |
| NovaDemanda.InputKeepsOptionsDistinct | src/pages/NovaDemanda.jsx:59-68 | No input ever puts a duplicate into the agency or client options |
| NovaDemanda.Submit | src/pages/NovaDemanda.jsx:133-140 | Submission is blocked with the required-fields message iff one of the seven required fields is empty; otherwise the payload is the form plus the user id |
| NovaDemanda.BlankFormIsBlocked | src/pages/NovaDemanda.jsx:133-136 | Submitting the untouched initial form is always blocked |
| NovaDemanda.DeadlineStoredAsTyped | src/pages/NovaDemanda.jsx:69-71 | The deadline reaches the payload exactly as typed |
| NovaDemanda.FanOut | src/pages/NovaDemanda.jsx:90-111 | No records on query failure, missing or empty rows; otherwise one 'nova_demanda' unread record per profile, with that profile's id and the ticket and author ids |
| NovaDemanda.FanOutReachesEveryone | src/pages/NovaDemanda.jsx:101-111 | Every fetched profile, the author included, gets a record, and distinct profiles get distinct records |
| EditarDemanda.FindById | src/pages/EditarDemanda.jsx:46-47 | The lookup returns the first ticket with the route id, and nothing iff no ticket has it |
| EditarDemanda.PrefillDefaults | src/pages/EditarDemanda.jsx:55-68 | Prefill copies each truthy column, defaults to "" otherwise, prioridade to "media" and status to "pendente_visualizacao" |
| EditarDemanda.Load | src/pages/EditarDemanda.jsx:46-74 | "Demanda não encontrada" iff no ticket has the id, leaving the form initial; otherwise no error, the prefilled form of the first such ticket, and agency and client options that are duplicate-free and hold exactly the non-empty values of all tickets |
| EditarDemanda.OptionsOfColumn | src/pages/EditarDemanda.jsx:71-74 | The options built from one column of all tickets offer a value iff it is non-empty and some ticket has it there |
| EditarDemanda.Submit | src/pages/EditarDemanda.jsx:87-122 | A blank title gives "Título é obrigatório", then a blank description gives "Descrição é obrigatória"; otherwise the update payload is the form plus `updated_at` |
| EditarDemanda.TitleCheckedFirst | src/pages/EditarDemanda.jsx:94-102 | With both fields blank the title error wins |
| EditarDemanda.AfterUpdate | src/pages/EditarDemanda.jsx:110-114 | A falsy update result sets "Erro ao atualizar demanda" and a truthy one no error |
| EditarDemanda.HandleInputChange | src/pages/EditarDemanda.jsx:124-129 | Only the named field changes |
| Ticket.DisplayStatus | src/components/dashboard/DemandaCard.jsx:77 | An unknown or missing status is displayed with the `pendente_visualizacao` configuration |
| Ticket.Deadline | src/components/dashboard/DemandaCard.jsx:402-413 | No deadline shows "Sem prazo", an urgent one the countdown from creation, any other the date |
| Utils.CreatePageUrl | src/utils/index.js:1-5 | "Dashboard" maps to "/", every other name n to "/" + n |
| Utils.FormatDateSafely | src/utils/index.js:7-34 | A falsy input gives "Data não informada", an invalid one "Data inválida"; "dd/MM/yy" uses the year's last two characters and unknown patterns format as dd/MM/yyyy |
| Utils.DayMonthShape | src/utils/index.js:15-22 | For a real date "dd/MM" has length 5 with '/' at index 2, and its halves read back as the day and the 1-based month |
| Utils.PaddedField | src/utils/index.js:15-16 | A day or month number pads to exactly two characters that read back as the number |
| Text.PaddedRoundTrip | src/utils/index.js:15-16 | Zero-padding a number to k digits keeps its value, and gives exactly k characters when it fits |
| UrgentTimer.DeadlineOf | src/components/ui/UrgentTimer.jsx:12 | The deadline is exactly 86,400,000 ms after creation |
| UrgentTimer.Calculate | src/components/ui/UrgentTimer.jsx:9-28 | Expired iff the difference is ≤ 0, with time left (0,0,0); otherwise minutes and seconds lie in [0,60) and h·3600000 + m·60000 + s·1000 ≤ diff < that + 1000 |
| UrgentTimer.DecompositionUnique | src/components/ui/UrgentTimer.jsx:22-24 | Any hours/minutes/seconds split with those bounds is the computed one |
| UrgentTimer.SplitDecomposes | src/components/ui/UrgentTimer.jsx:22-24 | The floor divisions of a positive difference give hours, minutes < 60 and seconds < 60 that add up to it within one second |
| UrgentTimer.FormatTime | src/components/ui/UrgentTimer.jsx:38 | Values with one digit are left-padded with '0' to two characters; longer ones are unchanged |
| UrgentTimer.Render | src/components/ui/UrgentTimer.jsx:36-57 | Nothing is rendered before the first computation; "Expirado" iff expired; otherwise the hh:mm:ss clock, red iff fewer than 2 hours remain |
| UrgentTimer.ClockReadsBack | src/components/ui/UrgentTimer.jsx:55 | A running clock ends in ":mm:ss" whose fields read back as the minutes and seconds left |
| DemandaListItem.StatusLabel | src/components/dashboard/DemandaListItem.jsx:121-122 | The row's status icon and colours come from the ticket's configured status; an unknown or missing status is drawn with the pending-review icon and colours (the labels themselves appear only in the status menu) |
| DemandaListItem.LabelsIdentifyStatus | src/components/dashboard/DemandaListItem.jsx:30-55 | Distinct configured statuses have distinct labels |
| DemandaListItem.InlineTimer | src/components/dashboard/DemandaListItem.jsx:76-88 | "Expirado" iff created + 24h − now ≤ 0; otherwise minutes < 60 and h·3600000 + m·60000 ≤ diff < that + 60000 |
| DemandaListItem.InlineText | src/components/dashboard/DemandaListItem.jsx:83-88 | The row timer reads "Expirado" or "{h}h {m}m" |
| DemandaListItem.InlineAgreesWithTimer | src/components/dashboard/DemandaListItem.jsx:78-88 | The row timer and the countdown component agree on expiry and on hours and minutes |
| DemandaListItem.ResponsibleLabel | src/components/dashboard/DemandaListItem.jsx:260 | full_name, else display_name, else the raw responsible id, else "Sem responsável"; never empty |
| DemandaListItem.InfoRows | src/components/dashboard/DemandaListItem.jsx:235-252 | The adserver, agency and client rows appear in that order, each iff its value is truthy, showing that value |
| DemandaListItem.DeadlineCell | src/components/dashboard/DemandaListItem.jsx:263-274 | No deadline shows "Sem prazo", urgente the row timer, otherwise the deadline as "dd/MM" |
| DemandaListItem.Footer | src/components/dashboard/DemandaListItem.jsx:278-282 | "Editado" with the update date iff edited, else the creation date, both "dd/MM/yy" |
| DemandaCard.StatusLabel | src/components/dashboard/DemandaCard.jsx:77-78 | The card's status icon and colours come from the ticket's configured status; an unknown or missing status is drawn with the pending-review icon and colours (the labels appear only in the edit select and the status menu) |
| DemandaCard.StatusMenu | src/components/dashboard/DemandaCard.jsx:317-325 | The status menu has four entries, exactly the configured statuses, pending review first and finalized last |
| DemandaCard.HandleEdit | src/components/dashboard/DemandaCard.jsx:134-143 | Edit mode starts with a copy of exactly titulo, descricao, status, prioridade and responsavel_designado |
| DemandaCard.HandleCancel | src/components/dashboard/DemandaCard.jsx:165-168 | Cancel leaves edit mode with an empty snapshot |
| DemandaCard.CancelRestoresInitial | src/components/dashboard/DemandaCard.jsx:165-168 | Edit, any change, then cancel returns the card to its initial state |
| DemandaCard.SetEdit | src/components/dashboard/DemandaCard.jsx:213-276 | An edit input sets its own field to the value it emits, null included (the responsible picker's clear), and leaves the other snapshot fields unchanged |
| DemandaCard.InputValue | src/components/dashboard/DemandaCard.jsx:213-222 | An input shows its field, or "" when the field is unset or empty |
| DemandaCard.InputShowsTyped | src/components/dashboard/DemandaCard.jsx:213-222 | Right after a change an input shows the typed value, or "" once cleared |
| DemandaCard.StatusSelectValue | src/components/dashboard/DemandaCard.jsx:233 | The select shows the edited status, else the ticket's, else 'pendente_visualizacao' |
| DemandaCard.SelectAfterEdit | src/components/dashboard/DemandaCard.jsx:233 | Right after entering edit mode the select shows the ticket's status, or pending review |
| DemandaCard.SelectShowsChoice | src/components/dashboard/DemandaCard.jsx:233-234 | A chosen status is what the select then shows |
| DemandaCard.CommentBadge | src/components/dashboard/DemandaCard.jsx:355-361 | The badge appears iff the first count is positive, reading "comentário" for 1 and "comentários" otherwise |
| DemandaCard.BadgeReadsBack | src/components/dashboard/DemandaCard.jsx:359 | The badge's leading digits read back as the comment count |
| DemandaCard.FormatDateSafely | src/components/dashboard/DemandaCard.jsx:70-75 | null for an empty or unparseable date, otherwise that date in the requested pattern |
| DemandaCard.LoadUser | src/components/dashboard/DemandaCard.jsx:102-107 | A loaded user is named by its metadata name, or "Usuário" |
| DemandaCard.ResponsibleLabel | src/components/dashboard/DemandaCard.jsx:399 | "Sem responsável" until a user is loaded, then that user's name |
| DemandaCard.LoadedUserNamed | src/components/dashboard/DemandaCard.jsx:399 | Once a profile loads, the footer shows its metadata name or "Usuário" |
| DemandaCard.DeadlineArea | src/components/dashboard/DemandaCard.jsx:402-413 | "Sem prazo" iff no deadline, the countdown iff urgent, otherwise the deadline formatted "dd/MM" |
| DemandaCard.FooterStamp | src/components/dashboard/DemandaCard.jsx:417-421 | "Editado" with the update date iff updated_at is present and differs from created_at, else the creation date |
| DemandaCard.CardAndRowShareDeadlineRule | src/components/dashboard/DemandaCard.jsx:402-413 | The card's "Sem prazo", countdown and date branches are exactly the list row's (DemandaListItem.jsx:263-274), both dating with "dd/MM" |
| DemandaCard.CardAndRowShareFooterRule | src/components/dashboard/DemandaCard.jsx:417-421 | The card and the list row (DemandaListItem.jsx:278-282) mark the same tickets as edited and stamp the chosen date with "dd/MM/yy" |
| DemandaCard.StatusTablesDiffer | src/components/dashboard/DemandaCard.jsx:43-48 | In the status menus the card labels pending review "Pendente" where the list row's menu says "Pendente de Visualização"; the other three labels agree |
| Comentarios.SendDisabledIffBlank | src/components/dashboard/ComentariosSection.jsx:105 | Send is disabled iff the draft is only whitespace or a send is in flight |
| Comentarios.SubmitText | src/components/dashboard/ComentariosSection.jsx:39-50 | A whitespace-only draft is ignored; otherwise the trimmed draft is sent, with no whitespace at either end |
| Comentarios.ApplyAdd | src/components/dashboard/ComentariosSection.jsx:52-55 | A returned comment is appended at the end and the draft cleared; a falsy result changes nothing |
| Comentarios.Delete | src/components/dashboard/ComentariosSection.jsx:64-70 | Only after confirmation and success, exactly the comments with that id go and the rest keep their order; each kept element appears as often as in the input |
| Comentarios.DeleteUnknownKeepsAll | src/components/dashboard/ComentariosSection.jsx:68 | Deleting an id not in the thread leaves it unchanged |
| Comentarios.CanDelete | src/components/dashboard/ComentariosSection.jsx:153 | With a user signed in, the delete button shows iff the comment's user_id equals that user's id |
| Comentarios.OwnCommentOnly | src/components/dashboard/ComentariosSection.jsx:153 | A comment by u can be deleted by u and by no other signed-in user |
| Comentarios.AuthorlessNeverDeletable | src/components/dashboard/ComentariosSection.jsx:153 | A comment without user_id can be deleted by no signed-in user |
| Comentarios.HeaderCount | src/components/dashboard/ComentariosSection.jsx:88 | The header count is the number of comments |
| Comentarios.AddRaisesCount | src/components/dashboard/ComentariosSection.jsx:52-55 | A successful add raises the count by one |
| Comentarios.DeleteLowersCount | src/components/dashboard/ComentariosSection.jsx:66-69 | A successful delete lowers the count by the number of comments with that id |
| Comentarios.AuthorName | src/components/dashboard/ComentariosSection.jsx:146 | The author line is the profile's full name when it is non-empty, and "Usuário" otherwise |
| MentionInput.Detect | src/components/ui/MentionInput.jsx:26-30 | A detected query is all word characters and the text before the cursor ends with "@" + query |
| MentionInput.DetectComplete | src/components/ui/MentionInput.jsx:28 | Any text ending with "@" + word characters is detected with exactly that query |
| MentionInput.OnInput | src/components/ui/MentionInput.jsx:21-45 | With a mention: the users matching the lowercased query, in order, shown iff any, start at the '@', first selected; without: hidden and cleared; each kept element appears as often as in the input |
| MentionInput.KeyDown | src/components/ui/MentionInput.jsx:47-74 | Keys are ignored while hidden; arrows move the selection with wrap-around inside [0, n); Enter/Tab insert the selected user; Escape hides |
| MentionInput.ArrowsInverse | src/components/ui/MentionInput.jsx:51-62 | ArrowUp undoes ArrowDown and vice versa, wrap-around included |
| MentionInput.MentionName | src/components/ui/MentionInput.jsx:77 | The mention uses the name, else the email |
| MentionInput.InsertMention | src/components/ui/MentionInput.jsx:76-90 | The text is prefix up to the mention start + "@name " + the text from the cursor; the cursor lands after the space |
| MentionInput.InsertMentionFrames | src/components/ui/MentionInput.jsx:78-88 | The splice keeps the text before the '@' and after the cursor, with the cursor between "@name " and the tail |
| MentionInput.InsertThenHidden | src/components/ui/MentionInput.jsx:21-45 | Right after a mention is inserted the text before the cursor ends in a space, so no mention is detected there and the next input hides the suggestions |
| MentionInput.DetectThenInsert | src/components/ui/MentionInput.jsx:21-90 | Typing "@q" then choosing a user replaces "@q" with "@name " and keeps the tail |
| CreatableSelect.FilteredOptions | src/components/ui/CreatableSelect.jsx:21-25 | An empty search lists every option; otherwise an order-preserving subsequence of the options whose label contains the search ignoring case; each kept element appears as often as in the input |
| CreatableSelect.ShowCreateOption | src/components/ui/CreatableSelect.jsx:27 | The create entry shows iff the search is non-empty and no listed label equals it ignoring case |
| CreatableSelect.ShowCreateIffNoOptionEqual | src/components/ui/CreatableSelect.jsx:21-27 | The create entry shows iff the search is non-empty and no option at all equals it ignoring case |
| CreatableSelect.CreatedValueNotOfferedAgain | src/components/ui/CreatableSelect.jsx:27 | Once a created value is an option, it is not offered for creation again |
| CreatableSelect.TriggerLabel | src/components/ui/CreatableSelect.jsx:38-40 | The placeholder without a value; else the first matching option's label, or the raw value when none matches or its label is empty |
| CreatableSelect.FindValue | src/components/ui/CreatableSelect.jsx:39 | The index of the first option with that value, absent iff none has it |
| CreatableSelect.HandleSelect | src/components/ui/CreatableSelect.jsx:16-19 | An option emits its value, the create entry emits the raw search; the popover closes and the search stays |
| CreatableSelect.PickThenTriggerShows | src/components/ui/CreatableSelect.jsx:16-40 | With distinct values, picking an option makes the trigger show its label, or its value when the label is empty |
| CreatableSelect.CreateThenTriggerShows | src/components/ui/CreatableSelect.jsx:16-40 | Creating a new value, once appended as an option, makes the trigger show the typed text |
| ResponsibleSelector.ToUser | src/components/ui/ResponsibleSelector.jsx:35-40 | Without a metadata name a user is called 'Usuário' and displayed by email |
| ResponsibleSelector.ToUsers | src/components/ui/ResponsibleSelector.jsx:35-40 | One user per profile, in query order |
| ResponsibleSelector.FilteredUsers | src/components/ui/ResponsibleSelector.jsx:49-52 | Keeps, in order, the users whose display name or email contains the query ignoring case; each kept element appears as often as in the input |
| ResponsibleSelector.EmptyQueryKeepsAll | src/components/ui/ResponsibleSelector.jsx:49-52 | An empty query keeps every user |
| ResponsibleSelector.SelectedUser | src/components/ui/ResponsibleSelector.jsx:54 | The first user whose id equals the value, absent iff none matches |
| ResponsibleSelector.HandleSelect | src/components/ui/ResponsibleSelector.jsx:56-61 | Emits the user's id, closes the list and clears the search |
| ResponsibleSelector.HandleClear | src/components/ui/ResponsibleSelector.jsx:63-67 | Emits null, closes the list and clears the search |
| ResponsibleSelector.Toggle | src/components/ui/ResponsibleSelector.jsx:72-79 | No effect when disabled; otherwise the list flips open or closed |
| ResponsibleSelector.ToggleTwice | src/components/ui/ResponsibleSelector.jsx:72-79 | Two presses of the enabled trigger restore the picker |
| ResponsibleSelector.SelectThenShown | src/components/ui/ResponsibleSelector.jsx:54-61 | With unique ids, the user just chosen is the one shown as selected |
| ResponsibleSelector.ClearThenNothing | src/components/ui/ResponsibleSelector.jsx:54-67 | After clearing, no user is selected |
| ResponsibleSelector.ProfileFoundByEmail | src/components/ui/ResponsibleSelector.jsx:35-52 | Searching for a profile's email lists its user; a profile without a metadata name also matches through its display name, which is that email |
| ResponsibleSelector.SelectedProfile | src/components/ui/ResponsibleSelector.jsx:35-54 | The user shown for an id is built from the first profile with that id, and there is none iff no profile has it |
| NotificationPopup.MarkAsRead | src/components/ui/NotificationPopup.jsx:39-49 | Only entries with that id become read, the length is kept, and the badge becomes max(0, c−1) |
| NotificationPopup.MarkAsReadKeepsConsistent | src/components/ui/NotificationPopup.jsx:190-195 | Marking the one unread entry with that id keeps the badge equal to the number of unread entries |
| NotificationPopup.MarkAllAsRead | src/components/ui/NotificationPopup.jsx:51-61 | With no user nothing happens; otherwise every entry becomes read and the badge 0 |
| NotificationPopup.MarkAllMakesConsistent | src/components/ui/NotificationPopup.jsx:51-61 | After mark-all the badge equals the number of unread entries |
| NotificationPopup.Delete | src/components/ui/NotificationPopup.jsx:63-71 | Exactly the entries with that id go, order is kept, and the badge becomes max(0, c−1); each kept element appears as often as in the input |
| NotificationPopup.DeleteReadEntryDrifts | src/components/ui/NotificationPopup.jsx:67 | Deleting an already-read entry lowers the badge below the true unread count |
| NotificationPopup.DeleteCorrected | src/components/ui/NotificationPopup.jsx:63-71 | The same list change, with the badge lowered by the number of unread entries removed |
| NotificationPopup.DeleteCorrectedKeepsConsistent | src/components/ui/NotificationPopup.jsx:63-71 | The corrected delete keeps the badge equal to the number of unread entries |
| NotificationPopup.GetIcon | src/components/ui/NotificationPopup.jsx:73-84 | 'comentario', 'menção' and 'demanda_atribuida' each get their own icon; any other kind gets the bell |
| NotificationPopup.GetColor | src/components/ui/NotificationPopup.jsx:86-97 | The same three kinds get blue, purple and green; slate exactly when the icon is the default bell |
| NotificationPopup.NewTicketGetsDefault | src/components/ui/NotificationPopup.jsx:73-97 | 'nova_demanda' gets the default icon and colour |
| NotificationContext.Build | src/context/NotificationContext.jsx:19-24 | A new toast defaults to type 'info' and duration 5000, and any field the caller supplies overrides them |
| NotificationContext.Add | src/context/NotificationContext.jsx:17-28 | One toast is appended at the end, the earlier ones are untouched, and its id is returned |
| NotificationContext.Remove | src/context/NotificationContext.jsx:30-32 | Exactly the toasts with that id go, and the rest keep their order; each kept element appears as often as in the input |
| NotificationContext.ClearAll | src/context/NotificationContext.jsx:34-36 | The list becomes empty |
| NotificationContext.AddAfterClearAll | src/context/NotificationContext.jsx:17-36 | After clearing, the next toast is the only one and removing anything leaves nothing |
| NotificationContext.AddThenRemove | src/context/NotificationContext.jsx:17-32 | Removing a toast just added under a fresh id restores the list |
| NotificationContext.Notify | src/context/NotificationContext.jsx:39-48 | success/error/warning/info append a toast of the matching type with the given title, message and duration, an omitted duration stored as undefined |
| NotificationContext.DismissAfter | src/components/ui/notification.jsx:10-22 | A toast closes after its duration, 5000 when undefined, and never on its own when the duration is not positive |
| NotificationContext.NotifyDismissal | src/context/NotificationContext.jsx:39-48 | A `notify.*` toast without a duration closes after 5000 ms, one with a positive duration after that duration |
| NotificationContext.UseNotifications | src/context/NotificationContext.jsx:6-12 | Outside a provider the hook fails with its error, inside it returns the provider's value |
| Notificacao.List | src/entities/Notificacao.js:5-17 | Only the user's rows, newest first, each as often as in the table; [] on error |
| Notificacao.Create | src/entities/Notificacao.js:20-31 | On success one row is appended and returned; on error nothing changes and null is returned |
| Notificacao.FirstWithId | src/entities/Notificacao.js:45 | The first row with the id, absent iff no row has it |
| Notificacao.MarkAsRead | src/entities/Notificacao.js:34-46 | On success only rows with that id become read and an updated row (read, with that id) comes back, absent iff no row has the id; on error null and nothing changes |
| Notificacao.MarkAsReadLowersCount | src/entities/Notificacao.js:34-77 | Marking an id read lowers a user's unread count by exactly that user's unread rows with the id |
| Notificacao.MarkAllAsRead | src/entities/Notificacao.js:49-62 | Exactly the user's unread rows become read, all else unchanged; the rows returned are exactly those rows as updated (read), one per updated row |
| Notificacao.CountUnread | src/entities/Notificacao.js:65-77 | 0 on error, and never more than the table size |
| Notificacao.CountIsUnreadListed | src/entities/Notificacao.js:65-77 | The count is the number of the user's unread rows |
| Notificacao.MarkAllThenCountZero | src/entities/Notificacao.js:49-77 | After mark-all the user's unread count is 0 |
| Notificacao.MarkAllKeepsOthers | src/entities/Notificacao.js:49-62 | Mark-all for one user leaves every other user's unread count unchanged |
| Notificacao.Delete | src/entities/Notificacao.js:80-96 | On success exactly the rows with that id go, each other row kept as often as it occurs, and true is returned; on error false and nothing changes |
| Notificacao.DeleteLowersCount | src/entities/Notificacao.js:65-96 | Deleting an id lowers a user's unread count by exactly that user's unread rows with the id |
| Notificacao.DeletedNotListed | src/entities/Notificacao.js:5-17 | After a delete the id is no longer listed, and every other row of the user still is |
| Notificacao.CreatedIsListed | src/entities/Notificacao.js:5-31 | A created row appears in its user's list |
| App.Route | src/App.jsx:9-35 | No user: the login page everywhere, outside the layout. With a user: inside the layout, "/" and "/login" show the dashboard, "/novademanda" the form, and the edit page is shown exactly for paths of the form "/editardemanda/:id", with that id |
| App.EditLinkRoundTrip | src/App.jsx:27 | "/editardemanda/{id}" opens the edit page for that very id |
| App.NavigationTargets | src/App.jsx:25-26 | "/", "/novademanda" and the page-URL helper's paths reach the intended pages |
| App.RootIsDashboard | src/App.jsx:25 | With a user, "/" shows the dashboard |
| App.FormPathIsForm | src/App.jsx:26 | With a user, any capitalisation of "/novademanda" opens the creation form |

## Left out

- Backend I/O. Supabase queries, auth, the realtime channel, storage and email are
  not modelled. Their results are parameters: `ok` flags, fetched rows, the
  created ticket, the update outcome.
- The ticket and comment entity wrappers (`src/entities/Demanda.js`,
  `src/entities/Comentario.js`) are single-query pass-throughs and are not part of
  this model.
- The comment section calls `Demanda.getComentarios`, `addComentario` and
  `deleteComentario`, which the ticket entity does not define. Their results enter
  as parameters.
- The card's `handleSave`/`onUpdate` path is left out. `Demanda.update` returns a
  boolean, so `onUpdate` would receive `true` instead of a ticket.
- Timers and scheduling: the 30 s polling, both `setInterval`s, the toast
  auto-dismiss and the search debounce. Both countdowns are pure functions of
  integer creation and current times in milliseconds.
- Date parsing and locale formatting. `new Date`, date-fns and the pt-BR locale are
  parameters. The shared formatter takes day, month and year as integers. The
  card's date-library output is kept abstract as (time value, pattern).
- UrgentTimer.Calculate: an unparseable creation date makes the JavaScript
  difference NaN and renders "NaN" fields. The model takes an integer time and does
  not cover that case.
- Text.ToLower: lower-cases ASCII letters only, since full Unicode case mapping is
  out of scope.
- Text.Trim: removes ASCII whitespace only, since full Unicode whitespace is out of
  scope.
- Text.StrLess: the default sort is modelled as code-point order, not UTF-16
  code-unit order. The two differ only outside the Basic Multilingual Plane.
- StatusCards.StatusCounts: counts are keyed by the nullable status itself.
  JavaScript's coercion of null and undefined to the keys "null" and "undefined"
  is not modelled.
- App.Route: URL decoding and nested route ranking are not modelled.
- ResponsibleSelector.ToUser: the profile email is assumed present. A null email
  with no metadata name would make the search throw.
- Comentarios.CanDelete: with no user signed in, the source compares `user?.id`
  (undefined) with the comment's `user_id`, so a comment object lacking that field
  would show the button. `Nullable` does not tell null from undefined, so the model
  offers no button when signed out. The case cannot arise: `src/App.jsx:13-19`
  renders only the login page when there is no user.
- DemandaListItem.StatusLabel, DemandaCard.StatusLabel: the icon and colour classes
  of a status entry are not modelled; the entry is identified by its label.
- Notificacao.CountUnread: a successful query that returns a null count is treated
  as a failed query. Both yield 0.
- Notificacao.MarkAsRead: the database does not fix the order of the updated rows,
  so the model returns the first matching row in table order as `data[0]`.
- Notificacao.Create: the database-generated id and timestamp are taken as part
  of the given row.
- NovaDemanda.FanOut: the per-record create loop only counts successes for a log
  line, so the model stops at the records built.
- Area values: the two forms offer different area lists. Area, priority and
  status stay free strings.
- The edit page's "Erro ao carregar dados da demanda" is not modelled. The ticket
  list returns [] on error, so that branch is not reached.
- Presentation-only code is not modelled: the sidebar, drag-and-drop, the toast
  component beyond its auto-dismiss delay, image previews (including floating-point file sizes), animation and
  markup.

## Findings

| source | as written | input that shows it | evidently intended | confidence | as-written member | corrected member |
|---|---|---|---|---|---|---|
| src/components/ui/NotificationPopup.jsx:67 | `handleDelete` always lowers the unread badge by one, floored at 0 | A read entry and an unread entry with badge 1; deleting the read entry leaves badge 0 while one unread entry remains | Lower the badge only when the deleted entry was unread | medium, not executed | NotificationPopup.DeleteReadEntryDrifts | NotificationPopup.DeleteCorrectedKeepsConsistent |
