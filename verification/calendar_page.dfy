/** The calendar page's own state and its interaction handlers, as pure
    transitions that return the next state together with the effects they
    emit: store requests, snackbar notices and calls into the calendar widget. */
module CalendarPage {
  import opened Wrappers
  import opened Subsequences
  import opened CalendarEvents
  import opened EventFilter
  import opened ColorFilter

  const DesktopView: string := "dayGridMonth"
  const CompactView: string := "listWeek"

  const UpdateNotice: string := "Update success!"
  const CreateNotice: string := "Create success!"
  const DeleteNotice: string := "Delete success!"

  /** A freshly drawn time range. */
  datatype Range = Range(start: int, end: int)

  /** The date-range picker's state as the page reads it. */
  datatype Picker = Picker(startDate: Option<int>, endDate: Option<int>, isError: bool)

  datatype PageState = PageState(
    openForm: bool,
    selectedEventId: Option<string>,
    selectedRange: Option<Range>,
    view: string,
    filterColors: seq<string>,
    picker: Picker)

  /** The fields an update request carries: the whole form event, or only the
      timing a drag or resize changed. */
  datatype Patch =
    | WholeEvent(ev: CalendarEvent)
    | Timing(allDay: bool, start: Option<int>, end: Option<int>)

  /** A request handed to the event store. */
  datatype Request =
    | CreateEvent(ev: CalendarEvent)
    | UpdateEvent(id: string, patch: Patch)
    | DeleteEvent(id: string)

  datatype Effect =
    | Store(request: Request)
    | Snackbar(message: string)
    | ChangeView(newView: string)
    | Unselect

  datatype Step = Step(state: PageState, effects: seq<Effect>)

  /** The widget's view of an event after a drag or a resize. */
  datatype MovedEvent = MovedEvent(id: string, allDay: bool, start: Option<int>, end: Option<int>)

  /** JavaScript truthiness of an optional id: `null` and `""` are both false. */
  predicate Truthy(id: Option<string>) {
    id.Some? && id.value != ""
  }

  // ----- projections of an effect log -----

  /** The store requests of an effect log, in order. */
  function Requests(effects: seq<Effect>): (r: seq<Request>)
    ensures |r| <= |effects|
    ensures forall i :: 0 <= i < |r| ==> Store(r[i]) in effects
    ensures forall e :: e in effects && e.Store? ==> e.request in r
    decreases |effects|
  {
    if |effects| == 0 then []
    else
      assert effects == [effects[0]] + effects[1..];
      (if effects[0].Store? then [effects[0].request] else []) + Requests(effects[1..])
  }

  /** The snackbar notices of an effect log, in order. */
  function Notices(effects: seq<Effect>): (r: seq<string>)
    ensures |r| <= |effects|
    ensures forall i :: 0 <= i < |r| ==> Snackbar(r[i]) in effects
    ensures forall e :: e in effects && e.Snackbar? ==> e.message in r
    decreases |effects|
  {
    if |effects| == 0 then []
    else
      assert effects == [effects[0]] + effects[1..];
      (if effects[0].Snackbar? then [effects[0].message] else []) + Notices(effects[1..])
  }

  lemma {:induction false} RequestsAppend(a: seq<Effect>, b: seq<Effect>)
    ensures Requests(a + b) == Requests(a) + Requests(b)
    decreases |a|
  {
    if |a| > 0 {
      assert (a + b)[0] == a[0] && (a + b)[1..] == a[1..] + b;
      RequestsAppend(a[1..], b);
    } else {
      assert a + b == b;
    }
  }

  // ----- what stays untouched -----

  predicate SameSelection(a: PageState, b: PageState) {
    a.openForm == b.openForm && a.selectedEventId == b.selectedEventId && a.selectedRange == b.selectedRange
  }

  predicate SameFilter(a: PageState, b: PageState) {
    a.filterColors == b.filterColors && a.picker == b.picker
  }

  // ----- initial state and the breakpoint rule -----

  /** The view the page chooses for a layout: the month grid on desktop
      widths, the weekly list otherwise. */
  function ViewFor(isDesktop: bool): (v: string)
    ensures isDesktop <==> v == DesktopView
    ensures !isDesktop <==> v == CompactView
  {
    if isDesktop then DesktopView else CompactView
  }

  function InitialState(isDesktop: bool): (s: PageState)
    ensures !s.openForm && s.selectedEventId.None? && s.selectedRange.None?
    ensures s.view == ViewFor(isDesktop)
    ensures s.filterColors == [] && s.picker.startDate.None? && s.picker.endDate.None?
  {
    PageState(false, None, None, ViewFor(isDesktop), [], Picker(None, None, false))
  }

  /** The effect run when `isDesktop` changes: with the widget mounted, it is
      switched to the layout's view and the page records that view; without
      it nothing happens. */
  function BreakpointChanged(s: PageState, mounted: bool, isDesktop: bool): (r: Step)
    ensures mounted ==> r.state.view == ViewFor(isDesktop) && r.effects == [ChangeView(ViewFor(isDesktop))]
    ensures !mounted ==> r.state == s && r.effects == []
    ensures SameSelection(r.state, s) && SameFilter(r.state, s)
  {
    if mounted then
      var v := ViewFor(isDesktop);
      Step(s.(view := v), [ChangeView(v)])
    else Step(s, [])
  }

  /** The toolbar's view menu (`handleChangeView`): with the widget mounted,
      it is switched to the chosen view and the page records it; without it
      nothing happens. */
  function ChooseView(s: PageState, mounted: bool, v: string): (r: Step)
    ensures mounted ==> r.state.view == v && r.effects == [ChangeView(v)]
    ensures !mounted ==> r.state == s && r.effects == []
    ensures SameSelection(r.state, s) && SameFilter(r.state, s)
  {
    if mounted then Step(s.(view := v), [ChangeView(v)]) else Step(s, [])
  }

  /** Choosing the view already shown changes no state. */
  lemma ChooseShownViewKeepsState(s: PageState, mounted: bool)
    ensures ChooseView(s, mounted, s.view).state == s
  {
  }

  /** The view chosen at start-up is the one the breakpoint effect picks, so
      its first run on mount changes no state. */
  lemma InitialViewMatchesBreakpoint(isDesktop: bool, mounted: bool)
    ensures BreakpointChanged(InitialState(isDesktop), mounted, isDesktop).state == InitialState(isDesktop)
  {
  }

  /** Reporting the same breakpoint again leaves the state where the first report put it. */
  lemma BreakpointIdempotent(s: PageState, mounted: bool, isDesktop: bool)
    ensures var once := BreakpointChanged(s, mounted, isDesktop).state;
      BreakpointChanged(once, mounted, isDesktop).state == once
  {
  }

  // ----- the edit dialog and the selection -----

  function OpenModal(s: PageState): (r: PageState)
    ensures r.openForm
    ensures r.selectedEventId == s.selectedEventId && r.selectedRange == s.selectedRange
    ensures r.view == s.view && SameFilter(r, s)
  {
    s.(openForm := true)
  }

  /** Closing the dialog clears both kinds of selection and nothing else. */
  function CloseModal(s: PageState): (r: PageState)
    ensures !r.openForm && r.selectedEventId.None? && r.selectedRange.None?
    ensures r.view == s.view && SameFilter(r, s)
  {
    s.(openForm := false, selectedRange := None, selectedEventId := None)
  }

  /** A range drawn on the calendar: the widget's highlight is dropped (when
      mounted), the dialog opens and the range is remembered. The selected id
      is left as it was. */
  function SelectRange(s: PageState, mounted: bool, start: int, end: int): (r: Step)
    ensures r.state.openForm && r.state.selectedRange == Some(Range(start, end))
    ensures r.state.selectedEventId == s.selectedEventId
    ensures r.state.view == s.view && SameFilter(r.state, s)
    ensures Requests(r.effects) == [] && Notices(r.effects) == []
    ensures (Unselect in r.effects) <==> mounted
  {
    var shown := OpenModal(s);
    Step(shown.(selectedRange := Some(Range(start, end))), if mounted then [Unselect] else [])
  }

  /** A click on an event: the dialog opens on that id. The selected range is
      left as it was. */
  function SelectEvent(s: PageState, id: string): (r: PageState)
    ensures r.openForm && r.selectedEventId == Some(id)
    ensures r.selectedRange == s.selectedRange
    ensures r.view == s.view && SameFilter(r, s)
  {
    OpenModal(s).(selectedEventId := Some(id))
  }

  /** The filter drawer's event list: a truthy id behaves like a click on the
      event, a falsy one is ignored. */
  function DrawerSelectEvent(s: PageState, id: Option<string>): (r: PageState)
    ensures Truthy(id) ==> r.openForm && r.selectedEventId == id && r.selectedRange == s.selectedRange
    ensures !Truthy(id) ==> r == s
    ensures r.view == s.view && SameFilter(r, s)
  {
    if Truthy(id) then SelectEvent(s, id.value) else s
  }

  // ----- store requests -----

  /** The update a drag or resize sends: only the timing fields. */
  function TimingUpdate(moved: MovedEvent): Request {
    UpdateEvent(moved.id, Timing(moved.allDay, moved.start, moved.end))
  }

  /** Dropping an event elsewhere or resizing it (the two handlers are the
      same): one timing update, no notice, no state change. */
  function RescheduleEvent(s: PageState, moved: MovedEvent): (r: Step)
    ensures r.state == s
    ensures Requests(r.effects) == [UpdateEvent(moved.id, Timing(moved.allDay, moved.start, moved.end))]
    ensures Notices(r.effects) == []
  {
    Step(s, [Store(TimingUpdate(moved))])
  }

  /** Submitting the form: an update of the selected event when an id is
      selected, a creation otherwise; exactly one request and one notice, and
      the dialog and selection stay as they are. */
  function CreateUpdateEvent(s: PageState, ev: CalendarEvent): (r: Step)
    ensures r.state == s
    ensures |Requests(r.effects)| == 1 && |Notices(r.effects)| == 1
    ensures Truthy(s.selectedEventId) <==> Requests(r.effects)[0].UpdateEvent?
    ensures !Truthy(s.selectedEventId) <==> Requests(r.effects)[0].CreateEvent?
    ensures Truthy(s.selectedEventId) ==>
      Requests(r.effects)[0] == UpdateEvent(s.selectedEventId.value, WholeEvent(ev)) && Notices(r.effects) == [UpdateNotice]
    ensures !Truthy(s.selectedEventId) ==>
      Requests(r.effects)[0] == CreateEvent(ev) && Notices(r.effects) == [CreateNotice]
  {
    if Truthy(s.selectedEventId) then
      Step(s, [Store(UpdateEvent(s.selectedEventId.value, WholeEvent(ev))), Snackbar(UpdateNotice)])
    else
      Step(s, [Store(CreateEvent(ev)), Snackbar(CreateNotice)])
  }

  /** Deleting from the dialog: with an id selected, the dialog closes and the
      previously selected id is deleted; otherwise nothing happens. */
  function DeleteSelected(s: PageState): (r: Step)
    ensures !Truthy(s.selectedEventId) ==> r.state == s && r.effects == []
    ensures Truthy(s.selectedEventId) ==>
      && r.state == CloseModal(s)
      && Requests(r.effects) == [DeleteEvent(s.selectedEventId.value)]
      && Notices(r.effects) == [DeleteNotice]
  {
    if Truthy(s.selectedEventId) then
      var id := s.selectedEventId.value;
      Step(CloseModal(s), [Store(DeleteEvent(id)), Snackbar(DeleteNotice)])
    else Step(s, [])
  }

  // ----- the filter drawer -----

  function FilterEventColor(s: PageState, c: string): (r: PageState)
    ensures (c in r.filterColors) <==> (c !in s.filterColors)
    ensures forall x :: x != c ==> (x in r.filterColors <==> x in s.filterColors)
    ensures r.picker == s.picker && SameSelection(r, s) && r.view == s.view
  {
    s.(filterColors := ToggleColor(s.filterColors, c))
  }

  /** Reset empties the colour list and clears both picker bounds. */
  function ResetFilter(s: PageState): (r: PageState)
    ensures r.filterColors == [] && r.picker.startDate.None? && r.picker.endDate.None?
    ensures r.picker.isError == s.picker.isError
    ensures SameSelection(r, s) && r.view == s.view
  {
    s.(filterColors := [], picker := s.picker.(startDate := None, endDate := None))
  }

  /** The drawer's date-range picker reports new bounds and error flag; the
      page reads them as they are. */
  function PickDates(s: PageState, p: Picker): (r: PageState)
    ensures r.picker == p && r.filterColors == s.filterColors
    ensures SameSelection(r, s) && r.view == s.view
  {
    s.(picker := p)
  }

  /** The options the page hands to `applyFilter`. */
  function Options(s: PageState): FilterOptions {
    FilterOptions(s.filterColors, s.picker.startDate, s.picker.endDate, s.picker.isError)
  }

  /** The events the page hands to the calendar widget. */
  function DataFiltered(stored: seq<CalendarEvent>, s: PageState): (r: seq<CalendarEvent>)
    ensures IsSubsequence(r, Normalize(stored))
    ensures forall i :: 0 <= i < |r| ==> IsDisplayed(r[i]) && Admits(Options(s), r[i])
    ensures forall e :: e in Normalize(stored) && Admits(Options(s), e) ==> e in r
    ensures r == Normalize(KeepAdmitted(stored, Options(s)))
  {
    var all := Normalize(stored);
    var r := ApplyFilter(all, Options(s));
    SubsequenceMembers(r, all);
    assert forall i :: 0 <= i < |r| ==> r[i] in all;
    NormalizeCommutesWithFilter(stored, Options(s));
    ApplyFilterIsSinglePass(stored, Options(s));
    r
  }

  /** After a reset the widget is handed every stored event. */
  lemma ResetShowsEverything(stored: seq<CalendarEvent>, s: PageState)
    ensures DataFiltered(stored, ResetFilter(s)) == Normalize(stored)
  {
  }

  // ----- the selected event -----

  /** Position `k` holds the first event carrying `id`. */
  predicate FirstMatchAt(evs: seq<CalendarEvent>, id: string, k: int) {
    && 0 <= k < |evs|
    && evs[k].id == id
    && forall j :: 0 <= j < k ==> evs[j].id != id
  }

  /** The position of the first event carrying `id`, if any. */
  function FirstWithId(evs: seq<CalendarEvent>, id: string): (r: Option<nat>)
    ensures r.Some? ==> FirstMatchAt(evs, id, r.value)
    ensures r.None? ==> forall j :: 0 <= j < |evs| ==> evs[j].id != id
    decreases |evs|
  {
    if |evs| == 0 then None
    else if evs[0].id == id then Some(0)
    else
      match FirstWithId(evs[1..], id)
      case None => None
      case Some(k) => Some(k + 1)
  }

  /** The event the dialog edits: the first display record whose id is the
      selected id, or none when no truthy id is selected or nothing matches. */
  function SelectedEvent(stored: seq<CalendarEvent>, s: PageState): (r: Option<CalendarEvent>)
    ensures r.Some? <==>
      Truthy(s.selectedEventId) && exists j :: 0 <= j < |stored| && stored[j].id == s.selectedEventId.value
    ensures r.Some? ==> exists k :: FirstMatchAt(stored, s.selectedEventId.value, k) && r.value == Normalize(stored)[k]
  {
    if Truthy(s.selectedEventId) then
      var events := Normalize(stored);
      NormalizeKeepsIds(stored);
      match FirstWithId(events, s.selectedEventId.value)
      case None => None
      case Some(k) => Some(events[k])
    else None
  }

  // ----- every interaction -----

  datatype Action =
    | NewEvent
    | Cancel
    | RangeSelected(start: int, end: int)
    | EventClicked(id: string)
    | DrawerEventChosen(chosen: Option<string>)
    | EventDropped(dropped: MovedEvent)
    | EventResized(resized: MovedEvent)
    | Submitted(ev: CalendarEvent)
    | DeleteClicked
    | ColorToggled(color: string)
    | FilterReset
    | DatesPicked(picked: Picker)
    | ViewChosen(newView: string)
    | Breakpoint(isDesktop: bool)

  /** One interaction. `mounted` says whether the calendar widget is mounted
      (the page's reference to it is set). */
  function Handle(s: PageState, mounted: bool, a: Action): (r: Step)
    ensures |Requests(r.effects)| <= 1
    ensures !a.Breakpoint? && !a.ViewChosen? ==> r.state.view == s.view
    ensures a.Breakpoint? || a.ViewChosen? ==> SameSelection(r.state, s) && SameFilter(r.state, s)
    ensures !a.ColorToggled? && !a.FilterReset? && !a.DatesPicked? ==> SameFilter(r.state, s)
    ensures a.ColorToggled? || a.FilterReset? || a.DatesPicked? ==>
      SameSelection(r.state, s) && r.state.view == s.view && r.effects == []
  {
    match a
    case NewEvent => Step(OpenModal(s), [])
    case Cancel => Step(CloseModal(s), [])
    case RangeSelected(start, end) => SelectRange(s, mounted, start, end)
    case EventClicked(id) => Step(SelectEvent(s, id), [])
    case DrawerEventChosen(chosen) => Step(DrawerSelectEvent(s, chosen), [])
    case EventDropped(moved) => RescheduleEvent(s, moved)
    case EventResized(moved) => RescheduleEvent(s, moved)
    case Submitted(ev) => CreateUpdateEvent(s, ev)
    case DeleteClicked => DeleteSelected(s)
    case ColorToggled(c) => Step(FilterEventColor(s, c), [])
    case FilterReset => Step(ResetFilter(s), [])
    case DatesPicked(p) => Step(PickDates(s, p), [])
    case ViewChosen(v) => ChooseView(s, mounted, v)
    case Breakpoint(isDesktop) => BreakpointChanged(s, mounted, isDesktop)
  }

  /** Which interactions reach the widget or the snackbar: only the breakpoint
      and the view menu call `changeView`, only a drawn range calls
      `unselect`, and only submit and delete show a notice. */
  lemma HandleEffectOrigins(s: PageState, mounted: bool, a: Action)
    ensures forall e :: e in Handle(s, mounted, a).effects && e.ChangeView? ==> a.Breakpoint? || a.ViewChosen?
    ensures Unselect in Handle(s, mounted, a).effects ==> a.RangeSelected?
    ensures forall e :: e in Handle(s, mounted, a).effects && e.Snackbar? ==> a.Submitted? || a.DeleteClicked?
  {
    match a
    case Submitted(ev) =>
      assert Handle(s, mounted, a) == CreateUpdateEvent(s, ev);
    case DeleteClicked =>
      assert Handle(s, mounted, a) == DeleteSelected(s);
    case _ =>
  }

  /** A sequence of interactions, with the effects of each appended in order. */
  function Run(s: PageState, mounted: bool, actions: seq<Action>): (r: Step)
    ensures |Requests(r.effects)| <= |actions|
    decreases |actions|
  {
    if |actions| == 0 then Step(s, [])
    else
      var first := Handle(s, mounted, actions[0]);
      var rest := Run(first.state, mounted, actions[1..]);
      RequestsAppend(first.effects, rest.effects);
      Step(rest.state, first.effects + rest.effects)
  }

  // ----- the selection invariant -----

  /** With the dialog closed nothing is selected, and an id and a range are
      never selected together. */
  predicate SelectionCoherent(s: PageState) {
    && (!s.openForm ==> s.selectedEventId.None? && s.selectedRange.None?)
    && (s.selectedEventId.None? || s.selectedRange.None?)
  }

  /** The dialog is modal: gestures that select something reach the page
      only while it is closed. */
  predicate Enabled(s: PageState, a: Action) {
    (a.RangeSelected? || a.EventClicked? || a.DrawerEventChosen?) ==> !s.openForm
  }

  predicate EnabledRun(s: PageState, mounted: bool, actions: seq<Action>)
    decreases |actions|
  {
    |actions| == 0 ||
    (Enabled(s, actions[0]) && EnabledRun(Handle(s, mounted, actions[0]).state, mounted, actions[1..]))
  }

  lemma HandleKeepsSelectionCoherent(s: PageState, mounted: bool, a: Action)
    requires SelectionCoherent(s) && Enabled(s, a)
    ensures SelectionCoherent(Handle(s, mounted, a).state)
  {
  }

  lemma {:induction false} RunKeepsSelectionCoherent(s: PageState, mounted: bool, actions: seq<Action>)
    requires SelectionCoherent(s) && EnabledRun(s, mounted, actions)
    ensures SelectionCoherent(Run(s, mounted, actions).state)
    decreases |actions|
  {
    if |actions| > 0 {
      HandleKeepsSelectionCoherent(s, mounted, actions[0]);
      RunKeepsSelectionCoherent(Handle(s, mounted, actions[0]).state, mounted, actions[1..]);
    }
  }

  /** Nothing in the handlers themselves keeps the two selections apart: a
      range drawn while an event is selected leaves both set. */
  lemma RangeAfterEventKeepsBoth()
    ensures var s := SelectRange(SelectEvent(InitialState(true), "1"), true, 0, 60).state;
      s.selectedEventId == Some("1") && s.selectedRange == Some(Range(0, 60))
  {
  }

  /** Closing twice is closing once. */
  lemma CloseModalIdempotent(s: PageState)
    ensures CloseModal(CloseModal(s)) == CloseModal(s)
  {
  }

  /** A drawn range followed by a cancel leaves nothing selected. */
  lemma SelectRangeThenCancel(s: PageState, mounted: bool, start: int, end: int)
    ensures var c := CloseModal(SelectRange(s, mounted, start, end).state);
      !c.openForm && c.selectedEventId.None? && c.selectedRange.None? && c.view == s.view
  {
  }

  // ----- concrete scenarios -----

  lemma ExampleColorFilter()
    ensures var e1 := CalendarEvent("1", "", "", Some("#00AB55"), None, false, 10, 20);
      var e2 := CalendarEvent("2", "", "", Some("#1890FF"), None, false, 30, 40);
      ApplyFilter([e1, e2], FilterOptions(["#00AB55"], None, None, false)) == [e1]
  {
    var e1 := CalendarEvent("1", "", "", Some("#00AB55"), None, false, 10, 20);
    var e2 := CalendarEvent("2", "", "", Some("#1890FF"), None, false, 30, 40);
    var o := FilterOptions(["#00AB55"], None, None, false);
    assert "#1890FF" != "#00AB55" by {
      assert "#1890FF"[1] != "#00AB55"[1];
    }
    assert !ColorSelected(e2, o.colors);
    ApplyFilterIsSinglePass([e1, e2], o);
    assert [e1, e2][1..] == [e2];
    assert [e2][1..] == [];
  }

  lemma ExampleDrop(s: PageState)
    ensures var r := Handle(s, true, EventDropped(MovedEvent("1", false, Some(5), Some(6))));
      r.state == s && r.effects == [Store(UpdateEvent("1", Timing(false, Some(5), Some(6))))]
  {
  }

  lemma ExampleBreakpoint(s: PageState)
    requires s.view == DesktopView
    ensures var r := Handle(s, true, Breakpoint(false));
      r.effects == [ChangeView("listWeek")] && r.state == s.(view := "listWeek")
  {
  }
}
