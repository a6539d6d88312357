/** The two-stage filter `applyFilter` runs over the display records before
    they are handed to the calendar widget. */
module EventFilter {
  import opened Wrappers
  import opened Subsequences
  import opened CalendarEvents

  /** The filter's inputs besides the events: the active colours and the
      date-range picker's bounds and error flag. */
  datatype FilterOptions = FilterOptions(
    colors: seq<string>,
    startDate: Option<int>,
    endDate: Option<int>,
    isError: bool)

  /** The colour stage runs only for a non-empty colour list. */
  predicate ColorStageActive(o: FilterOptions) {
    |o.colors| > 0
  }

  /** The date stage runs only when both bounds are set and the picker reports no error. */
  predicate DateStageActive(o: FilterOptions) {
    o.startDate.Some? && o.endDate.Some? && !o.isError
  }

  /** `colors.includes(event.color)`: an event without a colour is never included. */
  predicate ColorSelected(e: CalendarEvent, colors: seq<string>) {
    e.color.Some? && e.color.value in colors
  }

  /** The event lies inside the window: it starts no earlier than `lo` and ends no later than `hi`. */
  predicate InWindow(e: CalendarEvent, lo: int, hi: int) {
    lo <= e.start && e.end <= hi
  }

  predicate PassesColorStage(e: CalendarEvent, o: FilterOptions) {
    ColorStageActive(o) ==> ColorSelected(e, o.colors)
  }

  predicate PassesDateStage(e: CalendarEvent, o: FilterOptions) {
    DateStageActive(o) ==> InWindow(e, o.startDate.value, o.endDate.value)
  }

  /** The events the filter lets through, judged one at a time. */
  predicate Admits(o: FilterOptions, e: CalendarEvent) {
    PassesColorStage(e, o) && PassesDateStage(e, o)
  }

  /** Reference definition: a single order-preserving pass keeping the admitted events. */
  function KeepAdmitted(evs: seq<CalendarEvent>, o: FilterOptions): seq<CalendarEvent>
    decreases |evs|
  {
    if |evs| == 0 then []
    else (if Admits(o, evs[0]) then [evs[0]] else []) + KeepAdmitted(evs[1..], o)
  }

  /** The `stabilizedThis` pairing of each event with its index. */
  function Stabilize(evs: seq<CalendarEvent>): (r: seq<(CalendarEvent, int)>)
    ensures |r| == |evs|
    ensures forall i :: 0 <= i < |r| ==> r[i].1 == i
    ensures Unstabilize(r) == evs
  {
    seq(|evs|, i requires 0 <= i < |evs| => (evs[i], i))
  }

  /** Projects the pairs back onto their events. */
  function Unstabilize(pairs: seq<(CalendarEvent, int)>): seq<CalendarEvent> {
    seq(|pairs|, i requires 0 <= i < |pairs| => pairs[i].0)
  }

  /** Keeps, in order, the events whose colour is in `colors`. */
  function KeepColors(evs: seq<CalendarEvent>, colors: seq<string>): (r: seq<CalendarEvent>)
    ensures IsSubsequence(r, evs)
    ensures forall i :: 0 <= i < |r| ==> ColorSelected(r[i], colors)
    ensures forall e :: e in evs && ColorSelected(e, colors) ==> e in r
    decreases |evs|
  {
    if |evs| == 0 then []
    else
      var rest := KeepColors(evs[1..], colors);
      SubsequenceCons(evs[0], rest, evs[1..]);
      assert evs == [evs[0]] + evs[1..];
      if ColorSelected(evs[0], colors) then [evs[0]] + rest else rest
  }

  /** Keeps, in order, the events lying inside the window [lo, hi]. */
  function KeepWindow(evs: seq<CalendarEvent>, lo: int, hi: int): (r: seq<CalendarEvent>)
    ensures IsSubsequence(r, evs)
    ensures forall i :: 0 <= i < |r| ==> InWindow(r[i], lo, hi)
    ensures forall e :: e in evs && InWindow(e, lo, hi) ==> e in r
    decreases |evs|
  {
    if |evs| == 0 then []
    else
      var rest := KeepWindow(evs[1..], lo, hi);
      SubsequenceCons(evs[0], rest, evs[1..]);
      assert evs == [evs[0]] + evs[1..];
      if InWindow(evs[0], lo, hi) then [evs[0]] + rest else rest
  }

  /** Stage one: the colour filter, or a passthrough for an empty colour list. */
  function ColorStage(evs: seq<CalendarEvent>, o: FilterOptions): (r: seq<CalendarEvent>)
    ensures IsSubsequence(r, evs)
    ensures forall i :: 0 <= i < |r| ==> PassesColorStage(r[i], o)
    ensures forall e :: e in evs && PassesColorStage(e, o) ==> e in r
    ensures !ColorStageActive(o) ==> r == evs
  {
    SubsequenceReflexive(evs);
    if ColorStageActive(o) then KeepColors(evs, o.colors) else evs
  }

  /** Stage two: the date-window filter, or a passthrough when a bound is
      missing or the picker reports an error. */
  function DateStage(evs: seq<CalendarEvent>, o: FilterOptions): (r: seq<CalendarEvent>)
    ensures IsSubsequence(r, evs)
    ensures forall i :: 0 <= i < |r| ==> PassesDateStage(r[i], o)
    ensures forall e :: e in evs && PassesDateStage(e, o) ==> e in r
    ensures !DateStageActive(o) ==> r == evs
  {
    SubsequenceReflexive(evs);
    if DateStageActive(o) then KeepWindow(evs, o.startDate.value, o.endDate.value) else evs
  }

  /** `applyFilter`: the identity `stabilizedThis` pass, then the colour
      stage, then the date stage. */
  function ApplyFilter(evs: seq<CalendarEvent>, o: FilterOptions): (r: seq<CalendarEvent>)
    ensures IsSubsequence(r, evs)
    ensures forall i :: 0 <= i < |r| ==> Admits(o, r[i])
    ensures forall e :: e in evs && Admits(o, e) ==> e in r
    ensures !ColorStageActive(o) && !DateStageActive(o) ==> r == evs
  {
    var data := Unstabilize(Stabilize(evs));
    var colored := ColorStage(data, o);
    var r := DateStage(colored, o);
    SubsequenceTransitive(r, colored, data);
    SubsequenceMembers(colored, data);
    SubsequenceMembers(r, colored);
    assert forall i :: 0 <= i < |r| ==> r[i] in colored;
    r
  }

  // ----- the two stages agree with the single-pass reference -----

  lemma ColorStageCons(e: CalendarEvent, t: seq<CalendarEvent>, o: FilterOptions)
    ensures ColorStage([e] + t, o) == (if PassesColorStage(e, o) then [e] else []) + ColorStage(t, o)
  {
    assert ([e] + t)[1..] == t;
  }

  lemma DateStageCons(e: CalendarEvent, t: seq<CalendarEvent>, o: FilterOptions)
    ensures DateStage([e] + t, o) == (if PassesDateStage(e, o) then [e] else []) + DateStage(t, o)
  {
    assert ([e] + t)[1..] == t;
  }

  /** Running the date stage after the colour stage is the single-pass reference filter. */
  lemma {:induction false} ColorThenDateIsSinglePass(evs: seq<CalendarEvent>, o: FilterOptions)
    ensures DateStage(ColorStage(evs, o), o) == KeepAdmitted(evs, o)
    decreases |evs|
  {
    if |evs| > 0 {
      var e, t := evs[0], evs[1..];
      assert evs == [e] + t;
      ColorStageCons(e, t, o);
      ColorThenDateIsSinglePass(t, o);
      if PassesColorStage(e, o) {
        DateStageCons(e, ColorStage(t, o), o);
      }
    }
  }

  /** The stages commute: the date stage first gives the same result. */
  lemma {:induction false} DateThenColorIsSinglePass(evs: seq<CalendarEvent>, o: FilterOptions)
    ensures ColorStage(DateStage(evs, o), o) == KeepAdmitted(evs, o)
    decreases |evs|
  {
    if |evs| > 0 {
      var e, t := evs[0], evs[1..];
      assert evs == [e] + t;
      DateStageCons(e, t, o);
      DateThenColorIsSinglePass(t, o);
      if PassesDateStage(e, o) {
        ColorStageCons(e, DateStage(t, o), o);
      }
    }
  }

  /** `applyFilter` is the single-pass reference filter. */
  lemma ApplyFilterIsSinglePass(evs: seq<CalendarEvent>, o: FilterOptions)
    ensures ApplyFilter(evs, o) == KeepAdmitted(evs, o)
  {
    ColorThenDateIsSinglePass(evs, o);
  }

  /** With both stages inactive the filter is the identity; with only the date
      stage inactive it is the colour stage alone. */
  lemma InactiveDateStageIsPassthrough(evs: seq<CalendarEvent>, o: FilterOptions)
    requires !DateStageActive(o)
    ensures ApplyFilter(evs, o) == ColorStage(evs, o)
  {
  }

  /** Filtering is idempotent: re-filtering the filtered events changes nothing. */
  lemma {:induction false} KeepAdmittedIdempotent(evs: seq<CalendarEvent>, o: FilterOptions)
    ensures KeepAdmitted(KeepAdmitted(evs, o), o) == KeepAdmitted(evs, o)
    decreases |evs|
  {
    if |evs| > 0 {
      var t := KeepAdmitted(evs[1..], o);
      KeepAdmittedIdempotent(evs[1..], o);
      if Admits(o, evs[0]) {
        var kept := [evs[0]] + t;
        assert kept[0] == evs[0] && kept[1..] == t;
        assert KeepAdmitted(kept, o) == [evs[0]] + KeepAdmitted(t, o);
        assert KeepAdmitted(evs, o) == kept;
      } else {
        assert [] + t == t;
        assert KeepAdmitted(evs, o) == t;
      }
    }
  }

  lemma ApplyFilterIdempotent(evs: seq<CalendarEvent>, o: FilterOptions)
    ensures ApplyFilter(ApplyFilter(evs, o), o) == ApplyFilter(evs, o)
  {
    ApplyFilterIsSinglePass(evs, o);
    ApplyFilterIsSinglePass(ApplyFilter(evs, o), o);
    KeepAdmittedIdempotent(evs, o);
  }

  /** The filter never looks at the text colour, so normalising before or
      after filtering gives the same display records. */
  lemma {:induction false} NormalizeCommutesWithKeepAdmitted(evs: seq<CalendarEvent>, o: FilterOptions)
    ensures KeepAdmitted(Normalize(evs), o) == Normalize(KeepAdmitted(evs, o))
    decreases |evs|
  {
    if |evs| > 0 {
      var n := Normalize(evs);
      assert n[0] == Display(evs[0]);
      assert n[1..] == Normalize(evs[1..]);
      NormalizeCommutesWithKeepAdmitted(evs[1..], o);
      var head := if Admits(o, evs[0]) then [evs[0]] else [];
      NormalizeAppend(head, KeepAdmitted(evs[1..], o));
    }
  }

  lemma NormalizeCommutesWithFilter(evs: seq<CalendarEvent>, o: FilterOptions)
    ensures ApplyFilter(Normalize(evs), o) == Normalize(ApplyFilter(evs, o))
  {
    ApplyFilterIsSinglePass(Normalize(evs), o);
    ApplyFilterIsSinglePass(evs, o);
    NormalizeCommutesWithKeepAdmitted(evs, o);
  }
}
