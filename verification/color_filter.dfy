/** The colour list of the filter drawer: `handleFilterEventColor` toggles a
    colour in or out of it. */
module ColorFilter {
  import opened Subsequences
  import opened CalendarEvents

  /** `colors.filter((value) => value !== c)`: every occurrence of `c` dropped,
      the other entries kept in order. */
  function RemoveAll(colors: seq<string>, c: string): (r: seq<string>)
    ensures IsSubsequence(r, colors)
    ensures c !in r
    ensures forall x :: x != c ==> multiset(r)[x] == multiset(colors)[x]
    decreases |colors|
  {
    if |colors| == 0 then []
    else
      var rest := RemoveAll(colors[1..], c);
      SubsequenceCons(colors[0], rest, colors[1..]);
      assert colors == [colors[0]] + colors[1..];
      if colors[0] != c then [colors[0]] + rest else rest
  }

  /** The toggle: a present colour is removed everywhere, an absent one is
      appended once at the end. */
  function ToggleColor(colors: seq<string>, c: string): (r: seq<string>)
    ensures (c in r) <==> (c !in colors)
    ensures forall x :: x != c ==> (x in r <==> x in colors)
    ensures c in colors ==> IsSubsequence(r, colors)
    ensures c in colors ==> forall x :: x != c ==> multiset(r)[x] == multiset(colors)[x]
    ensures c !in colors ==> |r| == |colors| + 1 && r[..|colors|] == colors && r[|colors|] == c
  {
    if c in colors then
      var r := RemoveAll(colors, c);
      assert forall x :: x != c ==> (x in r <==> multiset(r)[x] > 0);
      r
    else colors + [c]
  }

  /** Toggling a colour twice restores which colours are selected. */
  lemma ToggleTwiceRestoresMembership(colors: seq<string>, c: string)
    ensures forall x :: x in ToggleColor(ToggleColor(colors, c), c) <==> x in colors
  {
  }

  /** Removing a colour that is absent changes nothing. */
  lemma {:induction false} RemoveAllAbsent(colors: seq<string>, c: string)
    requires c !in colors
    ensures RemoveAll(colors, c) == colors
    decreases |colors|
  {
    if |colors| > 0 {
      assert c !in colors[1..] by {
        assert forall x :: x in colors[1..] ==> x in colors;
      }
      RemoveAllAbsent(colors[1..], c);
      assert colors == [colors[0]] + colors[1..];
    }
  }

  /** Removing a colour just appended to a list without it gives the list back. */
  lemma {:induction false} RemoveAllAfterAppend(colors: seq<string>, c: string)
    requires c !in colors
    ensures RemoveAll(colors + [c], c) == colors
    decreases |colors|
  {
    var s := colors + [c];
    if |colors| == 0 {
      assert s == [c];
      assert s[1..] == [];
    } else {
      assert s[0] == colors[0] && s[1..] == colors[1..] + [c];
      assert c !in colors[1..] by {
        assert forall x :: x in colors[1..] ==> x in colors;
      }
      RemoveAllAfterAppend(colors[1..], c);
      assert colors == [colors[0]] + colors[1..];
    }
  }

  /** For an absent colour the double toggle restores the exact list. */
  lemma ToggleTwiceRestoresAbsent(colors: seq<string>, c: string)
    requires c !in colors
    ensures ToggleColor(ToggleColor(colors, c), c) == colors
  {
    var once := ToggleColor(colors, c);
    assert once == colors + [c];
    RemoveAllAfterAppend(colors, c);
  }

  /** A duplicate-free colour list stays duplicate-free under toggling. */
  lemma ToggleKeepsNoDuplicates(colors: seq<string>, c: string)
    requires NoDuplicates(colors)
    ensures NoDuplicates(ToggleColor(colors, c))
  {
    var r := ToggleColor(colors, c);
    if c in colors {
      SubsequenceNoDuplicates(r, colors);
    } else {
      forall i, j | 0 <= i < j < |r| ensures r[i] != r[j] {
        if j == |colors| {
          assert r[i] == colors[i];
        } else {
          assert r[i] == colors[i] && r[j] == colors[j];
        }
      }
    }
  }

  /** Toggling only `COLOR_OPTIONS` colours keeps the selection within them. */
  lemma ToggleStaysWithin(colors: seq<string>, c: string)
    requires forall x :: x in colors ==> x in Palette
    requires c in Palette
    ensures forall x :: x in ToggleColor(colors, c) ==> x in Palette
  {
  }
}
