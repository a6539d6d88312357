/** Calendar event records, the fixed colour palette and the normaliser that
    turns stored events into display records (src/pages/dashboard/CalendarPage.tsx). */
module CalendarEvents {
  import opened Wrappers

  /** The seven category colours offered by the form and the filter drawer. */
  const Palette: seq<string> :=
    ["#00AB55", "#1890FF", "#54D62C", "#FFC107", "#FF4842", "#04297A", "#7A0C2E"]

  /** The palette offers seven distinct colours. */
  lemma PaletteIsDistinct()
    ensures |Palette| == 7
    ensures forall i, j :: 0 <= i < j < |Palette| ==> Palette[i] != Palette[j]
  {
  }

  /** A calendar event. `start` and `end` are timestamps (the value `fTimestamp`
      yields for the corresponding dates). `color` is optional because the
      widget's event input type leaves it optional; `textColor` is the display
      colour the normaliser derives. */
  datatype CalendarEvent = CalendarEvent(
    id: string,
    title: string,
    description: string,
    color: Option<string>,
    textColor: Option<string>,
    allDay: bool,
    start: int,
    end: int)

  /** A display record: a copy of `e` whose text colour is its category colour. */
  function Display(e: CalendarEvent): (d: CalendarEvent)
    ensures d.textColor == e.color
    ensures d.(textColor := e.textColor) == e
  {
    e.(textColor := e.color)
  }

  /** The mapping `useGetEvents` applies to the stored events. */
  function Normalize(stored: seq<CalendarEvent>): (r: seq<CalendarEvent>)
    ensures |r| == |stored|
    ensures forall i :: 0 <= i < |r| ==>
      r[i].textColor == stored[i].color && r[i].(textColor := stored[i].textColor) == stored[i]
    decreases |stored|
  {
    if |stored| == 0 then []
    else [Display(stored[0])] + Normalize(stored[1..])
  }

  /** A display record's text colour is its category colour. */
  predicate IsDisplayed(e: CalendarEvent) {
    e.textColor == e.color
  }

  /** Normalising display records changes nothing: the pass is idempotent. */
  lemma {:induction false} NormalizeIdempotent(stored: seq<CalendarEvent>)
    ensures Normalize(Normalize(stored)) == Normalize(stored)
  {
    var once := Normalize(stored);
    var twice := Normalize(once);
    assert |twice| == |once|;
    forall i | 0 <= i < |once| ensures twice[i] == once[i] {
      assert twice[i].(textColor := once[i].textColor) == once[i];
    }
  }

  /** Normalising keeps the ids at the same positions, so a lookup by id finds
      the same position before and after. */
  lemma NormalizeKeepsIds(stored: seq<CalendarEvent>)
    ensures forall i :: 0 <= i < |stored| ==> Normalize(stored)[i].id == stored[i].id
  {
  }

  /** Normalisation distributes over concatenation (it is a per-element map). */
  lemma {:induction false} NormalizeAppend(a: seq<CalendarEvent>, b: seq<CalendarEvent>)
    ensures Normalize(a + b) == Normalize(a) + Normalize(b)
  {
    var l := Normalize(a + b);
    var r := Normalize(a) + Normalize(b);
    assert |l| == |r|;
    forall i | 0 <= i < |l| ensures l[i] == r[i] {
      if i < |a| {
        assert (a + b)[i] == a[i];
        assert l[i].(textColor := a[i].textColor) == a[i];
        assert r[i] == Normalize(a)[i];
      } else {
        assert (a + b)[i] == b[i - |a|];
        assert l[i].(textColor := b[i - |a|].textColor) == b[i - |a|];
        assert r[i] == Normalize(b)[i - |a|];
      }
    }
  }
}
