# Calendar page: event filter and interaction state machine

This project models the logic of the dashboard calendar page
(`src/pages/dashboard/CalendarPage.tsx`) in Dafny 4.11 and proves properties of it:

- **Normaliser** (`useGetEvents`). It turns the stored events into display records. Each display record is a copy of its event with `textColor` set to `color`.
- **Filter engine** (`applyFilter`). It runs three passes in order: the identity `stabilizedThis` pass, a colour stage and a date-window stage. Each stage keeps the order of the events it lets through.
- **Colour toggle and reset** (`handleFilterEventColor`, `handleResetFilter`).
- **Page state machine.** The dialog flag, the selected event id, the selected range, the calendar view, the colour filter list and the date picker's bounds and error flag form a state. The handlers are pure transitions. Each returns the next state and an ordered log of effects:
  - store requests (`createEvent`, `updateEvent`, `deleteEvent`);
  - snackbar notices;
  - calls into the calendar widget (`changeView`, `unselect`).

Modules:

| file | module | contents |
|---|---|---|
| `wrappers.dfy` | `Wrappers` | `Option`, standing for `null`/`undefined` |
| `subsequences.dfy` | `Subsequences` | order-preserving subsequence, duplicate-freedom, their lemmas |
| `calendar_events.dfy` | `CalendarEvents` | the event record, `COLOR_OPTIONS`, the normaliser |
| `event_filter.dfy` | `EventFilter` | `applyFilter`, its stages, a single-pass reference filter |
| `color_filter.dfy` | `ColorFilter` | the colour toggle |
| `calendar_page.dfy` | `CalendarPage` | page state, handlers, the selected-event lookup, the breakpoint rule |

Modelling choices:

- Dates are integer timestamps. `fTimestamp` is taken to be the conversion already applied to them.
- An event's `color` is optional, because the widget's event input type leaves it optional. `includes` of a missing colour on a list of strings is false, so an event without a colour never passes an active colour stage.
- JavaScript truthiness is explicit. `Truthy(id)` is false for both `null` and `""`. It is used at lines 201, 212 and 347.
- The `mounted` parameter is the page's widget reference being set (`calendarRef.current`). When it is not set, the breakpoint effect and the view menu do nothing, not even `setView`. In the same case `handleSelectRange` skips `unselect` but still opens the dialog.
- React's batched `setState` calls are applied in order, as one transition. `handleDeleteEvent` deletes the id it read before closing the dialog, and the model keeps that order.

Behaviour of the handlers worth knowing:

- **Selections are not exclusive.** No handler clears the other kind of selection: a range drawn while an event is selected leaves both set (`CalendarPage.RangeAfterEventKeepsBoth`). Exclusivity holds for runs in which selection gestures arrive only while the modal dialog is closed (`CalendarPage.RunKeepsSelectionCoherent`).
- **No check on drawn ranges.** `handleSelectRange` stores whatever range the widget reports, so `SelectRange` has no precondition on its bounds.
- **Selecting sends no request.** Drawing a range, clicking an event and choosing one in the drawer send no store request and no notice. Drawing a range also clears the widget's highlight (`unselect`) when the widget is mounted. Each interaction sends at most one store request (`CalendarPage.Handle`).

## Model

| member | source | states |
|---|---|---|
| CalendarEvents.PaletteIsDistinct | src/pages/dashboard/CalendarPage.tsx:40-48 | the colour palette has seven entries, all different |
| CalendarEvents.Normalize | src/pages/dashboard/CalendarPage.tsx:372-375 | same length and order as the stored events; element i differs from stored event i only in `textColor`, which equals its `color` |
| CalendarEvents.NormalizeIdempotent | src/pages/dashboard/CalendarPage.tsx:372-375 | normalising display records again changes nothing |
| CalendarEvents.NormalizeKeepsIds | src/pages/dashboard/CalendarPage.tsx:372-375 | every position keeps its event id, so lookups by id see the same order |
| EventFilter.Stabilize | src/pages/dashboard/CalendarPage.tsx:395-397 | pairing events with their indices and projecting back gives the input unchanged |
| EventFilter.KeepColors | src/pages/dashboard/CalendarPage.tsx:399-403 | output is an order-preserving subsequence; every output event has a colour in the list; every input event with a listed colour is kept |
| EventFilter.KeepWindow | src/pages/dashboard/CalendarPage.tsx:405-411 | output is an order-preserving subsequence; every output event starts at or after the lower bound and ends at or before the upper bound; every input event in the window is kept |
| EventFilter.ColorStage | src/pages/dashboard/CalendarPage.tsx:399-403 | with a non-empty list it keeps exactly the listed colours in order; with an empty list it returns its input unchanged |
| EventFilter.DateStage | src/pages/dashboard/CalendarPage.tsx:405-411 | with both bounds set and no picker error it keeps exactly the events in the window; otherwise it returns its input unchanged |
| EventFilter.ApplyFilter | src/pages/dashboard/CalendarPage.tsx:382-414 | output is an order-preserving subsequence of the input; every output event passes both active stages; every input event passing both is in the output; with no colours and an inactive date stage the output is the input |
| EventFilter.ColorThenDateIsSinglePass | src/pages/dashboard/CalendarPage.tsx:399-411 | the colour stage followed by the date stage equals one pass keeping each event that passes both |
| EventFilter.DateThenColorIsSinglePass | src/pages/dashboard/CalendarPage.tsx:399-411 | running the stages in the other order gives the same events |
| EventFilter.ApplyFilterIsSinglePass | src/pages/dashboard/CalendarPage.tsx:382-414 | `applyFilter` equals the single-pass reference filter |
| EventFilter.InactiveDateStageIsPassthrough | src/pages/dashboard/CalendarPage.tsx:405-413 | with a missing bound or a picker error the result is the colour stage's output alone |
| EventFilter.KeepAdmittedIdempotent | src/pages/dashboard/CalendarPage.tsx:382-414 | the reference filter applied twice equals it applied once |
| EventFilter.ApplyFilterIdempotent | src/pages/dashboard/CalendarPage.tsx:382-414 | filtering already filtered events changes nothing |
| EventFilter.NormalizeCommutesWithFilter | src/pages/dashboard/CalendarPage.tsx:241-247 | filtering the display records equals normalising the filtered stored events, since the filter never reads `textColor` |
| ColorFilter.RemoveAll | src/pages/dashboard/CalendarPage.tsx:224 | the colour no longer occurs; the others keep their order and their number of occurrences |
| ColorFilter.ToggleColor | src/pages/dashboard/CalendarPage.tsx:222-228 | the toggled colour's membership flips and no other colour's does; a present colour is removed everywhere and the rest keep their order; an absent colour is appended once at the end |
| ColorFilter.ToggleTwiceRestoresMembership | src/pages/dashboard/CalendarPage.tsx:222-228 | toggling the same colour twice restores which colours are selected |
| ColorFilter.RemoveAllAbsent | src/pages/dashboard/CalendarPage.tsx:224 | removing a colour that is not in the list returns the list unchanged |
| ColorFilter.RemoveAllAfterAppend | src/pages/dashboard/CalendarPage.tsx:224-225 | removing a colour just appended to a list that lacked it returns the original list |
| ColorFilter.ToggleTwiceRestoresAbsent | src/pages/dashboard/CalendarPage.tsx:222-228 | for a colour not in the list, toggling twice returns the exact original list |
| ColorFilter.ToggleKeepsNoDuplicates | src/pages/dashboard/CalendarPage.tsx:222-228 | a colour list without duplicates stays without duplicates |
| ColorFilter.ToggleStaysWithin | src/pages/dashboard/CalendarPage.tsx:222-228 | toggling `COLOR_OPTIONS` colours keeps the selection inside `COLOR_OPTIONS` |
| CalendarPage.InitialState | src/pages/dashboard/CalendarPage.tsx:65-90 | the dialog is closed, nothing is selected, the colour list and picker bounds are empty, and the view is the breakpoint's view |
| CalendarPage.ViewFor | src/pages/dashboard/CalendarPage.tsx:97 | `dayGridMonth` exactly on desktop widths, `listWeek` exactly otherwise |
| CalendarPage.BreakpointChanged | src/pages/dashboard/CalendarPage.tsx:92-101 | with the widget mounted, one `changeView` to the breakpoint's view, which also becomes the page's view; unmounted, nothing changes; selection and filter are untouched |
| CalendarPage.InitialViewMatchesBreakpoint | src/pages/dashboard/CalendarPage.tsx:90-101 | the view chosen at start-up is the one the breakpoint effect picks, so its run on mount changes no state |
| CalendarPage.BreakpointIdempotent | src/pages/dashboard/CalendarPage.tsx:92-101 | reporting the same breakpoint twice leaves the state where the first report put it |
| CalendarPage.ChooseView | src/pages/dashboard/CalendarPage.tsx:123-131 | with the widget mounted, one `changeView` to the chosen view, which also becomes the page's view; unmounted, nothing changes; selection and filter are untouched |
| CalendarPage.ChooseShownViewKeepsState | src/pages/dashboard/CalendarPage.tsx:123-131 | choosing the view already shown changes no state |
| CalendarPage.OpenModal | src/pages/dashboard/CalendarPage.tsx:103-105 | the dialog opens; selection, view and filter are untouched |
| CalendarPage.CloseModal | src/pages/dashboard/CalendarPage.tsx:107-111 | the dialog closes and both the range and the id are cleared; view and filter are untouched |
| CalendarPage.CloseModalIdempotent | src/pages/dashboard/CalendarPage.tsx:107-111 | closing twice equals closing once |
| CalendarPage.SelectRange | src/pages/dashboard/CalendarPage.tsx:153-165 | the dialog opens with the drawn range; the selected id is kept; `unselect` is sent exactly when the widget is mounted; no store request or notice |
| CalendarPage.SelectEvent | src/pages/dashboard/CalendarPage.tsx:167-170 | the dialog opens on the clicked id; the selected range is kept |
| CalendarPage.DrawerSelectEvent | src/pages/dashboard/CalendarPage.tsx:346-351 | a truthy id opens the dialog on it; a null or empty id leaves the state unchanged |
| CalendarPage.RescheduleEvent | src/pages/dashboard/CalendarPage.tsx:172-198 | a resize or a drop sends exactly one update request for the moved event's id, carrying only allDay, start and end; no notice; state unchanged |
| CalendarPage.CreateUpdateEvent | src/pages/dashboard/CalendarPage.tsx:200-208 | exactly one request and one notice. With a truthy selected id: an update of that id with "Update success!". Otherwise: a create with "Create success!". Dialog and selection are unchanged |
| CalendarPage.DeleteSelected | src/pages/dashboard/CalendarPage.tsx:210-220 | with no truthy id, no effect and no change. Otherwise the dialog is closed, one delete of the previously selected id is sent, and "Delete success!" is shown |
| CalendarPage.FilterEventColor | src/pages/dashboard/CalendarPage.tsx:222-228 | the page's colour list is toggled (membership flips for that colour only); selection, view and picker are untouched |
| CalendarPage.ResetFilter | src/pages/dashboard/CalendarPage.tsx:230-239 | the colour list is emptied and both picker bounds are cleared; selection and view are untouched |
| CalendarPage.DataFiltered | src/pages/dashboard/CalendarPage.tsx:241-247 | the widget receives an order-preserving subsequence of the display records; each passes the page's filter, and every display record that passes it is received; it is the normalised single-pass filter of the stored events |
| CalendarPage.PickDates | src/pages/dashboard/CalendarPage.tsx:82 | the page reads the picker's new bounds and error flag; colours, selection and view are untouched |
| CalendarPage.ResetShowsEverything | src/pages/dashboard/CalendarPage.tsx:230-247 | after a reset the widget receives every display record |
| CalendarPage.FirstWithId | src/pages/dashboard/CalendarPage.tsx:76 | the index of the first event with the id, or none exactly when no event has it |
| CalendarPage.SelectedEvent | src/pages/dashboard/CalendarPage.tsx:74-80 | defined exactly when the selected id is truthy and some event carries it; then it is the display record of the first such event |
| CalendarPage.Handle | src/pages/dashboard/CalendarPage.tsx:103-239 | every interaction sends at most one store request; only the breakpoint and the view menu change the view, and they touch neither selection nor filter; only the colour toggle, the reset and the date picker touch the filter, and they touch neither selection nor view and emit nothing |
| CalendarPage.HandleEffectOrigins | src/pages/dashboard/CalendarPage.tsx:92-220 | only the breakpoint effect and the view menu call `changeView`, only a drawn range calls `unselect`, and only submit and delete show a notice |
| CalendarPage.Run | src/pages/dashboard/CalendarPage.tsx:103-239 | a run of n interactions sends at most n store requests |
| CalendarPage.HandleKeepsSelectionCoherent | src/pages/dashboard/CalendarPage.tsx:107-170 | when selection gestures arrive only with the dialog closed, each interaction keeps "closed means nothing selected, never both an id and a range" |
| CalendarPage.RunKeepsSelectionCoherent | src/pages/dashboard/CalendarPage.tsx:107-220 | the same invariant holds after every such run |
| CalendarPage.RangeAfterEventKeepsBoth | src/pages/dashboard/CalendarPage.tsx:153-170 | a range drawn while an event is selected leaves both selected |
| CalendarPage.SelectRangeThenCancel | src/pages/dashboard/CalendarPage.tsx:107-165 | drawing a range then cancelling leaves nothing selected and the view unchanged |
| CalendarPage.ExampleColorFilter | src/pages/dashboard/CalendarPage.tsx:399-403 | with colour list `["#00AB55"]` and no dates, the events coloured `#00AB55` and `#1890FF` filter to the first alone |
| CalendarPage.ExampleDrop | src/pages/dashboard/CalendarPage.tsx:186-198 | dropping event "1" to (false, 5, 6) sends exactly `update("1", {allDay: false, start: 5, end: 6})` and changes no state |
| CalendarPage.ExampleBreakpoint | src/pages/dashboard/CalendarPage.tsx:92-101 | leaving the desktop breakpoint in month view sends `changeView("listWeek")` and changes only the view |

## Left out

- Rendering, left out because it holds no logic to state. This covers the JSX, Helmet, the MUI components, the breadcrumbs, the form, the filter drawer's own markup, the styled calendar and the drawer's open/closed flag (lines 86, 288, 344).
- Date navigation, left out because the widget owns the date arithmetic and the page only reads the date back. This covers `handleClickToday`, `handleClickDatePrev`, `handleClickDateNext` and the focus `date` (lines 84, 113-121, 133-151).
- The store thunks (`getEvents`, `createEvent`, `updateEvent`, `deleteEvent`) are asynchronous and foreign. They appear only as entries in the effect log. The fetch on mount (lines 364-370) is not modelled.
- The `try`/`catch` blocks, `console.error`, failed requests and any rollback are left out. Errors of the asynchronous thunks are not visible here.
- `fTimestamp` is not modelled: timestamps are integers. A missing event `end` is not modelled: the code casts it and passes it to `fTimestamp`.
- `useDateRangePicker` is not part of this model. A change made in the picker is one interaction that hands the page new bounds and a new error flag (`CalendarPage.PickDates`); how the hook derives `isError` from the bounds is not modelled.
- ResetFilter: sets both picker bounds to none unconditionally. Line 233 guards this with a check that the picker's setters exist. The hook that supplies them is not part of this model.
- `useResponsive`, `useSnackbar`, `useSettingsContext` and React's effect scheduling are left out. `isDesktop` and `mounted` are parameters.
