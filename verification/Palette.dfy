/** The action picker: greedy subsequence search, the selection, and the window that scrolls after it. */
module Palette {
  import opened Bytes
  import opened Text
  import Selection

  // ----- Matching

  function Visible(): char -> bool { (c: char) => !IsWhitespace(c) }

  function Needles(query: string): string { Selection.Filter(Visible(), query) }

  /** The one-pass scan: each needle takes the first place left for it. */
  predicate Greedy(needles: string, text: string)
    decreases |text|
  {
    || needles == []
    || (text != [] && if text[0] == needles[0] then Greedy(needles[1..], text[1..]) else Greedy(needles, text[1..]))
  }

  predicate FuzzyMatch(query: string, text: string) { Greedy(Needles(query), text) }

  /** The needles occur in the label at the increasing positions `at`. */
  ghost predicate Embeds(needles: string, text: string, at: seq<nat>) {
    && |at| == |needles|
    && (forall i :: 0 <= i < |at| ==> at[i] < |text| && text[at[i]] == needles[i])
    && (forall i, j :: 0 <= i < j < |at| ==> at[i] < at[j])
  }

  function Shift(at: seq<nat>, by1: int): (r: seq<nat>)
    requires forall i :: 0 <= i < |at| ==> at[i] + by1 >= 0
    ensures |r| == |at| && forall i :: 0 <= i < |at| ==> r[i] == at[i] + by1
  {
    seq(|at|, i requires 0 <= i < |at| => at[i] + by1)
  }

  lemma {:induction false} GreedyEmbeds(needles: string, text: string) returns (at: seq<nat>)
    requires Greedy(needles, text)
    ensures Embeds(needles, text, at)
    decreases |text|
  {
    if needles == [] {
      at := [];
    } else if text[0] == needles[0] {
      var rest := GreedyEmbeds(needles[1..], text[1..]);
      at := [0] + Shift(rest, 1);
    } else {
      var rest := GreedyEmbeds(needles, text[1..]);
      at := Shift(rest, 1);
    }
  }

  lemma {:induction false} EmbeddingIsFound(needles: string, text: string, at: seq<nat>)
    requires Embeds(needles, text, at)
    ensures Greedy(needles, text)
    decreases |text|
  {
    if needles != [] {
      assert at[0] < |text|;
      if text[0] == needles[0] {
        assert forall i :: 0 <= i < |at[1..]| ==> at[1..][i] > at[0];
        EmbeddingIsFound(needles[1..], text[1..], Shift(at[1..], -1));
      } else {
        assert forall i :: 0 <= i < |at| ==> at[i] >= at[0] > 0;
        EmbeddingIsFound(needles, text[1..], Shift(at, -1));
      }
    }
  }

  ghost predicate FoundInOrder(needles: string, text: string) {
    exists at: seq<nat> :: Embeds(needles, text, at)
  }

  lemma GreedyIffFound(needles: string, text: string)
    ensures Greedy(needles, text) <==> FoundInOrder(needles, text)
  {
    if Greedy(needles, text) {
      var at := GreedyEmbeds(needles, text);
    }
    if FoundInOrder(needles, text) {
      var at: seq<nat> :| Embeds(needles, text, at);
      EmbeddingIsFound(needles, text, at);
    }
  }

  /** The needles are the characters of the query at the positions `at`: all that are not white space. */
  ghost predicate VisiblePart(query: string, needles: string, at: seq<nat>) {
    && Selection.StandsAt(query, at, needles)
    && forall i :: 0 <= i < |query| ==> (i in at <==> !IsWhitespace(query[i]))
  }

  /**
   The greedy scan accepts exactly the labels in which the query's characters, white space left out, can be
   found in order.
   */
  lemma GreedyIsComplete(query: string, text: string) returns (needles: string, at: seq<nat>)
    ensures VisiblePart(query, needles, at) && (FuzzyMatch(query, text) <==> FoundInOrder(needles, text))
  {
    needles, at := Needles(query), Selection.Positions(Visible(), query);
    Selection.FilterExactly(Visible(), query);
    GreedyIffFound(needles, text);
  }

  /** What embeds in an embedded text embeds in the whole. */
  lemma GreedyIsTransitive(a: string, b: string, c: string)
    requires Greedy(a, b) && Greedy(b, c)
    ensures Greedy(a, c)
  {
    var p := GreedyEmbeds(a, b);
    var q := GreedyEmbeds(b, c);
    var r := seq(|p|, i requires 0 <= i < |p| => q[p[i]]);
    EmbeddingIsFound(a, c, r);
  }

  lemma NeedlesConcat(a: string, b: string)
    ensures Needles(a + b) == Needles(a) + Needles(b)
  {
    Selection.FilterConcat(Visible(), a, b);
  }

  lemma {:induction false} PartEmbeds(a: string, b: string, c: string)
    ensures Greedy(a + c, a + b + c)
    decreases |a| + |b|
  {
    if a != [] {
      assert (a + c)[1..] == a[1..] + c && (a + b + c)[1..] == a[1..] + b + c;
      PartEmbeds(a[1..], b, c);
    } else if b != [] {
      SuffixEmbeds(b, c);
      assert a + c == c && a + b + c == b + c;
    } else {
      assert a + b + c == c == a + c;
      SuffixEmbeds([], c);
      assert [] + c == c;
    }
  }

  lemma SuffixEmbeds(b: string, c: string)
    ensures Greedy(c, b + c)
  {
    EmbeddingIsFound(c, b + c, seq(|c|, i requires 0 <= i < |c| => |b| + i));
  }

  /** Typing more, anywhere in the query, can only shrink what it matches. */
  lemma InsertingNarrows(a: string, typed: string, c: string, text: string)
    requires FuzzyMatch(a + typed + c, text)
    ensures FuzzyMatch(a + c, text)
  {
    NeedlesConcat(a, c);
    NeedlesConcat(a + typed, c);
    NeedlesConcat(a, typed);
    PartEmbeds(Needles(a), Needles(typed), Needles(c));
    GreedyIsTransitive(Needles(a + c), Needles(a + typed + c), text);
  }

  // ----- The list

  /** An entry with its label in lower case, its action and the Project it goes to, if any. */
  datatype Item = Item(name: string, action: nat, project: Option<nat>) {
    function Target(): (nat, Option<nat>) { (action, project) }
  }

  function Matching(query: string): Item -> bool { (item: Item) => FuzzyMatch(query, item.name) }

  function Filter(query: string, items: seq<Item>): seq<Item> { Selection.Filter(Matching(query), items) }

  /** The list is the catalog's entries that match, all of them, in catalog order. */
  ghost predicate Lists(query: string, catalog: seq<Item>, items: seq<Item>, at: seq<nat>) {
    && Selection.StandsAt(catalog, at, items)
    && forall i :: 0 <= i < |catalog| ==> (i in at <==> FuzzyMatch(query, catalog[i].name))
  }

  ghost predicate IsList(query: string, catalog: seq<Item>, items: seq<Item>) {
    exists at :: Lists(query, catalog, items, at)
  }

  lemma FilterLists(query: string, catalog: seq<Item>)
    ensures IsList(query, catalog, Filter(query, catalog))
  {
    var at := Selection.Positions(Matching(query), catalog);
    Selection.FilterExactly(Matching(query), catalog);
    assert Lists(query, catalog, Filter(query, catalog), at);
  }

  /** After an insertion, filtering what is shown gives the same list as filtering everything, in catalog order. */
  lemma {:induction false} FilterNarrows(a: string, typed: string, c: string, items: seq<Item>)
    ensures Filter(a + typed + c, Filter(a + c, items)) == Filter(a + typed + c, items)
    decreases |items|
  {
    if items != [] {
      FilterNarrows(a, typed, c, items[1..]);
      var rest := Filter(a + c, items[1..]);
      if FuzzyMatch(a + c, items[0].name) {
        assert ([items[0]] + rest)[1..] == rest;
      } else {
        assert [] + rest == rest;
        if FuzzyMatch(a + typed + c, items[0].name) {
          InsertingNarrows(a, typed, c, items[0].name);
        }
      }
    }
  }

  // ----- The window

  /** Rows for entries on a screen of `rows` rows. */
  function VisibleRows(rows: nat): (n: nat)
    ensures 1 <= n <= 12 && (11 <= rows <= 22 ==> rows == n + 10)
  {
    var room := if rows < 10 then 0 else rows - 10;
    if room < 1 then 1 else if room > 12 then 12 else room
  }

  /** The first entry shown: the window moves only as far as the selection forces it. */
  function Start(scroll: nat, count: nat, selected: nat, visible: nat): nat
    requires visible > 0
  {
    var last := if count < visible then 0 else count - visible;
    var clamped := if scroll < last then scroll else last;
    var lowered := if selected < clamped then selected else clamped;
    if selected >= lowered + visible then selected + 1 - visible else lowered
  }

  /** The window contains the selection and never runs past the end of the list. */
  lemma WindowShowsSelection(scroll: nat, count: nat, selected: nat, visible: nat)
    requires visible > 0
    ensures Start(scroll, count, selected, visible) <= selected < Start(scroll, count, selected, visible) + visible
    ensures selected < count ==> Start(scroll, count, selected, visible) <= if count < visible then 0
            else count - visible
  {
  }

  /** Selecting a row that is already shown leaves the window where it is. */
  lemma WindowStaysPut(scroll: nat, count: nat, before: nat, selected: nat, visible: nat)
    requires visible > 0 && before < count
    requires var start := Start(scroll, count, before, visible); start <= selected < start + visible
    ensures Start(Start(scroll, count, before, visible), count, selected, visible) ==
            Start(scroll, count, before, visible)
  {
    WindowShowsSelection(scroll, count, before, visible);
  }

  // ----- The picker

  datatype Key = Escape | Cancel | Enter | Down | Tab | Up | Edit(code: nat)

  /** A decoded key and the bytes it took. */
  datatype Press = Press(key: Key, used: nat) {
    function Width(): nat { if used < 1 then 1 else used }
  }

  datatype Outcome = Nothing | Switched | Close | Run(consumed: nat)

  /** A line editor: the new text and cursor, and whether anything changed. */
  type Editor = (string, nat, Key) -> (string, nat, bool)

  datatype View = View(query: string, cursor: nat, scroll: nat, catalog: seq<Item>, items: seq<Item>, selected: nat) {
    /** The list shows what the query matches, and the selection is one of its entries. */
    ghost predicate Good() {
      items == Filter(query, catalog) && (items != [] ==> selected < |items|)
    }
  }

  /** The view after a key that neither closes nor runs, and whether it must be repainted. */
  function Typed(edit: Editor, v: View, key: Key): (View, bool) {
    if (key == Down || key == Tab) && v.items != [] then (v.(selected := (v.selected + 1) % |v.items|), true)
    else if key == Up && v.items != [] then (v.(selected := (v.selected + |v.items| - 1) % |v.items|), true)
    else
      var (text, position, edited) := edit(v.query, v.cursor, key);
      if edited then (v.(query := text, cursor := position, items := Filter(text, v.catalog), selected := 0), true)
      else (v.(cursor := position), false)
  }

  /** Keys in order; only Enter on an existing entry and the closing keys stop the batch. */
  function Handled(edit: Editor, v: View, presses: seq<Press>, at: nat, changed: bool): (View, Outcome)
    decreases |presses|
  {
    if presses == [] then (v, if changed then Switched else Nothing)
    else
      var key, next := presses[0].key, at + presses[0].Width();
      if key == Escape || key == Cancel then (v, Close)
      else if key == Enter && v.items != [] then (v, Run(next))
      else if key == Enter then Handled(edit, v, presses[1..], next, changed)
      else
        var (w, now) := Typed(edit, v, key);
        Handled(edit, w, presses[1..], next, changed || now)
  }

  function FirstWithTarget(target: (nat, Option<nat>), items: seq<Item>): Option<nat> {
    if items == [] then None
    else if items[0].Target() == target then Some(0)
    else match FirstWithTarget(target, items[1..])
      case None => None
      case Some(i) => Some(i + 1)
  }

  lemma {:induction false} FirstWithTargetIsFound(target: (nat, Option<nat>), items: seq<Item>)
    ensures match FirstWithTarget(target, items)
            case None => forall i :: 0 <= i < |items| ==> items[i].Target() != target
            case Some(i) => i < |items| && items[i].Target() == target
  {
    if items != [] {
      FirstWithTargetIsFound(target, items[1..]);
    }
  }

  function General(): Item -> bool { (item: Item) => item.project.None? }

  function WithoutProjects(items: seq<Item>): seq<Item> { Selection.Filter(General(), items) }

  /** The catalog after a refresh: its entries without a Project, all of them in order, then the new Projects. */
  lemma RefreshedCatalog(v: View, projects: seq<Item>) returns (kept: seq<Item>, at: seq<nat>)
    ensures Refreshed(v, projects).catalog == kept + projects && Selection.StandsAt(v.catalog, at, kept)
    ensures forall i :: 0 <= i < |v.catalog| ==> (i in at <==> v.catalog[i].project.None?)
  {
    kept, at := WithoutProjects(v.catalog), Selection.Positions(General(), v.catalog);
    Selection.FilterExactly(General(), v.catalog);
  }

  function Refreshed(v: View, projects: seq<Item>): View {
    var catalog := WithoutProjects(v.catalog) + projects;
    var items := Filter(v.query, catalog);
    var found := if v.selected < |v.items| then FirstWithTarget(v.items[v.selected].Target(), items) else None;
    v.(catalog := catalog, items := items, selected := if found.Some? then found.value else 0)
  }

  /** Painting, and hit testing, settle the window and remember it. */
  function Shown(v: View, rows: nat): View {
    v.(scroll := Start(v.scroll, |v.items|, v.selected, VisibleRows(rows)))
  }

  /** The entry under content row `row` of the box: two heading rows come first. */
  function Hit(v: View, rows: nat, row: Option<nat>): Option<nat> {
    if row.None? || row.value < 2 then None
    else
      var offset := row.value - 2;
      var index := Start(v.scroll, |v.items|, v.selected, VisibleRows(rows)) + offset;
      if offset < VisibleRows(rows) && index < |v.items| then Some(index) else None
  }

  function Hovered(v: View, rows: nat, row: Option<nat>): View {
    var hit := Hit(v, rows, row);
    if hit.Some? then Shown(v, rows).(selected := hit.value) else Shown(v, rows)
  }

  // ----- Every interleaving

  datatype Event =
    | Keys(presses: seq<Press>) | Projects(projects: seq<Item>)
    | Pointer(rows: nat, row: Option<nat>) | Paint(rows: nat)

  function Opened(catalog: seq<Item>): View { View([], 0, 0, catalog, catalog, 0) }

  function After(edit: Editor, v: View, e: Event): View {
    match e
    case Keys(presses) => Handled(edit, v, presses, 0, false).0
    case Projects(projects) => Refreshed(v, projects)
    case Pointer(rows, row) => Hovered(v, rows, row)
    case Paint(rows) => Shown(v, rows)
  }

  function AfterAll(edit: Editor, v: View, events: seq<Event>): View
    decreases |events|
  {
    if events == [] then v else AfterAll(edit, After(edit, v, events[0]), events[1..])
  }

  lemma {:induction false} EverythingMatchesNothing(items: seq<Item>)
    ensures Filter([], items) == items
  {
    if items != [] {
      EverythingMatchesNothing(items[1..]);
      assert items == [items[0]] + items[1..];
    }
  }

  lemma TypedKeepsGood(edit: Editor, v: View, key: Key)
    requires v.Good()
    ensures Typed(edit, v, key).0.Good()
  {
  }

  /** An action runs only on an existing entry, and only by an Enter that ends where it says. */
  lemma {:induction false} HandledKeepsGood(edit: Editor, v: View, presses: seq<Press>, at: nat, changed: bool)
    requires v.Good()
    ensures var (w, outcome) := Handled(edit, v, presses, at, changed);
            && w.Good() && w.catalog == v.catalog && w.scroll == v.scroll
            && (outcome.Run? ==> w.selected < |w.items|)
            && (outcome == Nothing ==> !changed && w == v.(cursor := w.cursor))
    decreases |presses|
  {
    if presses != [] {
      var key, next := presses[0].key, at + presses[0].Width();
      if key == Enter && v.items == [] {
        HandledKeepsGood(edit, v, presses[1..], next, changed);
      } else if key != Escape && key != Cancel && key != Enter {
        var (w, now) := Typed(edit, v, key);
        TypedKeepsGood(edit, v, key);
        HandledKeepsGood(edit, w, presses[1..], next, changed || now);
      }
    }
  }

  lemma RefreshedKeepsGood(v: View, projects: seq<Item>)
    ensures Refreshed(v, projects).Good()
  {
    if v.selected < |v.items| {
      FirstWithTargetIsFound(v.items[v.selected].Target(), Refreshed(v, projects).items);
    }
  }

  /**
   What was typed stays, and the selection stays on its entry as long as the entry is still listed; else it is
   the first.
   */
  lemma RefreshKeepsEntry(v: View, projects: seq<Item>)
    requires v.Good() && v.items != []
    ensures var w := Refreshed(v, projects);
            && w.query == v.query && w.cursor == v.cursor && w.scroll == v.scroll
            && if exists i :: 0 <= i < |w.items| && w.items[i].Target() == v.items[v.selected].Target()
               then w.selected < |w.items| && w.items[w.selected].Target() == v.items[v.selected].Target()
               else w.selected == 0
  {
    FirstWithTargetIsFound(v.items[v.selected].Target(), Refreshed(v, projects).items);
  }

  lemma {:induction false} AlwaysGood(edit: Editor, v: View, events: seq<Event>)
    requires v.Good()
    ensures AfterAll(edit, v, events).Good()
    decreases |events|
  {
    if events != [] {
      match events[0] {
        case Keys(presses) => HandledKeepsGood(edit, v, presses, 0, false);
        case Projects(projects) => RefreshedKeepsGood(v, projects);
        case _ =>
      }
      AlwaysGood(edit, After(edit, v, events[0]), events[1..]);
    }
  }

  /**
   Over every interleaving of keys, project refreshes, pointer moves and repaints: the list is what the
   query matches in catalog order, the selection is in range, and the window painted next contains it.
   */
  lemma EveryInterleaving(edit: Editor, catalog: seq<Item>, events: seq<Event>, rows: nat)
    ensures var v := AfterAll(edit, Opened(catalog), events);
            && IsList(v.query, v.catalog, v.items)
            && (v.items != [] ==> v.selected < |v.items|)
            && Shown(v, rows).scroll <= v.selected < Shown(v, rows).scroll + VisibleRows(rows)
            && (v.items != [] ==> Hit(v, rows, Some(v.selected - Shown(v, rows).scroll + 2)) == Some(v.selected))
  {
    EverythingMatchesNothing(catalog);
    AlwaysGood(edit, Opened(catalog), events);
    var v := AfterAll(edit, Opened(catalog), events);
    FilterLists(v.query, v.catalog);
    WindowShowsSelection(v.scroll, |v.items|, v.selected, VisibleRows(rows));
  }

  /**
   Moving the pointer selects the entry under it and never moves the window: the entry under the pointer stays
   there.
   */
  lemma HoverHoldsStill(v: View, rows: nat, row: Option<nat>)
    requires v.Good() && v.items != []
    ensures Shown(Hovered(v, rows, row), rows).scroll == Shown(v, rows).scroll
    ensures Hit(Hovered(v, rows, row), rows, row) == Hit(v, rows, row)
    ensures Hovered(v, rows, row).selected == if Hit(v, rows, row).Some? then Hit(v, rows, row).value else v.selected
  {
    var start, visible := Shown(v, rows).scroll, VisibleRows(rows);
    var w := Hovered(v, rows, row);
    WindowShowsSelection(v.scroll, |v.items|, v.selected, visible);
    WindowStaysPut(v.scroll, |v.items|, v.selected, w.selected, visible);
  }

  /** Whatever is typed, refreshed, pointed at or painted, the picker's actions stay in its catalog, in order. */
  lemma {:induction false} ActionsStay(edit: Editor, v: View, events: seq<Event>)
    requires forall i, k :: 0 <= i < |events| && events[i].Projects? && 0 <= k < |events[i].projects| ==>
               events[i].projects[k].project.Some?
    ensures WithoutProjects(AfterAll(edit, v, events).catalog) == WithoutProjects(v.catalog)
    decreases |events|
  {
    if events != [] {
      var w := After(edit, v, events[0]);
      match events[0] {
        case Keys(presses) => KeysKeepCatalog(edit, v, presses, 0, false);
        case Projects(projects) => RefreshKeepsActions(v, projects);
        case _ =>
      }
      assert forall i :: 0 <= i < |events[1..]| ==> events[1..][i] == events[i + 1];
      ActionsStay(edit, w, events[1..]);
    }
  }

  lemma {:induction false} KeysKeepCatalog(edit: Editor, v: View, presses: seq<Press>, at: nat, changed: bool)
    ensures Handled(edit, v, presses, at, changed).0.catalog == v.catalog
    decreases |presses|
  {
    if presses != [] {
      var (w, now) := Typed(edit, v, presses[0].key);
      KeysKeepCatalog(edit, v, presses[1..], at + presses[0].Width(), changed);
      KeysKeepCatalog(edit, w, presses[1..], at + presses[0].Width(), changed || now);
    }
  }

  lemma RefreshKeepsActions(v: View, projects: seq<Item>)
    requires forall k :: 0 <= k < |projects| ==> projects[k].project.Some?
    ensures WithoutProjects(Refreshed(v, projects).catalog) == WithoutProjects(v.catalog)
  {
    var kept := WithoutProjects(v.catalog);
    Selection.FilterConcat(General(), kept, projects);
    forall k | 0 <= k < |kept| ensures General()(kept[k]) {
      Selection.FilterMembers(General(), v.catalog, kept[k]);
    }
    Selection.FilterChosen(General(), kept);
    NoActions(projects);
    assert kept + [] == kept;
  }

  lemma {:induction false} NoActions(projects: seq<Item>)
    requires forall k :: 0 <= k < |projects| ==> projects[k].project.Some?
    ensures WithoutProjects(projects) == []
  {
    if projects != [] {
      NoActions(projects[1..]);
    }
  }

  /** A picker that opens shows the whole catalog, its first entry selected, and nothing typed. */
  lemma OpensOnCatalog(catalog: seq<Item>)
    ensures var v := Opened(catalog);
            v.Good() && v.catalog == catalog && v.items == catalog && v.query == [] && v.selected == 0
  {
    EverythingMatchesNothing(catalog);
  }

  // ----- What is left of a batch

  /** The press at which a batch stops, or the end. */
  function StopsAt(edit: Editor, v: View, presses: seq<Press>): (n: nat)
    ensures n <= |presses|
    decreases |presses|
  {
    if presses == [] then 0
    else
      var key := presses[0].key;
      if key == Escape || key == Cancel || (key == Enter && v.items != []) then 0
      else 1 + StopsAt(edit, if key == Enter then v else Typed(edit, v, key).0, presses[1..])
  }

  function Widths(presses: seq<Press>): nat {
    if presses == [] then 0 else presses[0].Width() + Widths(presses[1..])
  }

  /**
   Which presses each outcome loses: running gives back everything behind its Enter, since it says how many
   bytes it used; closing says nothing, and whatever stands behind its key in the batch is dropped; the other
   outcomes use the whole batch.
   */
  lemma {:induction false} WhatIsLeft(edit: Editor, v: View, presses: seq<Press>, at: nat, changed: bool)
    ensures var n, outcome := StopsAt(edit, v, presses), Handled(edit, v, presses, at, changed).1;
            && (n == |presses| <==> outcome == Nothing || outcome == Switched)
            && (outcome.Run? ==> n < |presses| && presses[n].key == Enter
                                 && outcome.consumed == at + Widths(presses[..n + 1]))
            && (outcome == Close ==> n < |presses| && (presses[n].key == Escape || presses[n].key == Cancel))
    decreases |presses|
  {
    if presses != [] {
      var key, next := presses[0].key, at + presses[0].Width();
      if key == Enter && v.items == [] {
        WhatIsLeft(edit, v, presses[1..], next, changed);
      } else if key != Escape && key != Cancel && key != Enter {
        var (w, now) := Typed(edit, v, key);
        WhatIsLeft(edit, w, presses[1..], next, changed || now);
      }
      var n := StopsAt(edit, v, presses);
      if n < |presses| {
        WidthsOf(presses, n);
      }
    }
  }

  lemma WidthsOf(presses: seq<Press>, n: nat)
    requires n < |presses|
    ensures n == 0 ==> Widths(presses[..1]) == presses[0].Width()
    ensures n > 0 ==> Widths(presses[..n + 1]) == presses[0].Width() + Widths(presses[1..][..n])
  {
    assert presses[..1][1..] == [];
    assert presses[..n + 1][1..] == presses[1..][..n];
  }

  /** Closing drops what is behind it: any other presses in its place change nothing. */
  lemma {:induction false} CloseDrops(
    edit: Editor, v: View, presses: seq<Press>, more: seq<Press>, at: nat, changed: bool
  )
    requires Handled(edit, v, presses, at, changed).1 == Close
    ensures var n := StopsAt(edit, v, presses);
            n < |presses| && Handled(edit, v, presses[..n + 1] + more, at, changed) ==
              Handled(edit, v, presses, at, changed)
    decreases |presses|
  {
    var key, next := presses[0].key, at + presses[0].Width();
    var n := StopsAt(edit, v, presses);
    WhatIsLeft(edit, v, presses, at, changed);
    var other := presses[..n + 1] + more;
    assert other[0] == presses[0];
    if n > 0 {
      assert other[1..] == presses[1..][..n] + more;
      if key == Enter {
        CloseDrops(edit, v, presses[1..], more, next, changed);
      } else {
        var (w, now) := Typed(edit, v, key);
        CloseDrops(edit, w, presses[1..], more, next, changed || now);
      }
    }
  }

  // ----- Typing

  /** The line editor over the keys of a batch: an edit that changes nothing may still move the cursor. */
  function Edited(edit: Editor, text: string, cursor: nat, presses: seq<Press>): (string, nat)
    decreases |presses|
  {
    if presses == [] then (text, cursor)
    else
      var (next, position, changed) := edit(text, cursor, presses[0].key);
      Edited(edit, if changed then next else text, position, presses[1..])
  }

  ghost predicate Changes(edit: Editor, text: string, cursor: nat, presses: seq<Press>)
    decreases |presses|
  {
    && presses != []
    && var (next, position, changed) := edit(text, cursor, presses[0].key);
       changed || Changes(edit, text, position, presses[1..])
  }

  /**
   A batch of edits leaves the query and cursor that the editor makes of all its keys, lists what the new query
   matches, and starts at the first entry again if anything changed; if nothing did, it says so.
   */
  lemma {:induction false} BatchEdits(edit: Editor, v: View, presses: seq<Press>, at: nat, changed: bool)
    requires v.Good() && forall i :: 0 <= i < |presses| ==> presses[i].key.Edit?
    ensures var (w, outcome) := Handled(edit, v, presses, at, changed);
            && (w.query, w.cursor) == Edited(edit, v.query, v.cursor, presses)
            && w.items == Filter(w.query, v.catalog)
            && (Changes(edit, v.query, v.cursor, presses) ==> w.selected == 0)
            && (!Changes(edit, v.query, v.cursor, presses) ==> w == v.(cursor := w.cursor))
            && outcome == if changed || Changes(edit, v.query, v.cursor, presses) then Switched else Nothing
    decreases |presses|
  {
    if presses != [] {
      var (w, now) := Typed(edit, v, presses[0].key);
      BatchEdits(edit, w, presses[1..], at + presses[0].Width(), changed || now);
      if now {
        StaysFirst(edit, w, presses[1..], at + presses[0].Width(), changed || now);
      }
    }
  }

  lemma {:induction false} StaysFirst(edit: Editor, v: View, presses: seq<Press>, at: nat, changed: bool)
    requires v.selected == 0 && forall i :: 0 <= i < |presses| ==> presses[i].key.Edit?
    ensures Handled(edit, v, presses, at, changed).0.selected == 0
    decreases |presses|
  {
    if presses != [] {
      var (w, now) := Typed(edit, v, presses[0].key);
      StaysFirst(edit, w, presses[1..], at + presses[0].Width(), changed || now);
    }
  }

  // ----- The arrows

  /** How far a batch of arrow keys moves. */
  function Net(presses: seq<Press>): int {
    if presses == [] then 0 else (if presses[0].key == Up then -1 else 1) + Net(presses[1..])
  }

  /** A position moved around a list of `n` entries. */
  ghost predicate Around(from: int, to: nat, n: nat) {
    to < n && exists laps: int :: to == from + laps * n
  }

  lemma AroundStep(a: nat, up: bool, n: nat)
    requires a < n
    ensures Around(if up then a - 1 else a + 1, (a + (if up then n - 1 else 1)) % n, n)
  {
    if up {
      assert (a + n - 1) % n == if a == 0 then n - 1 else a - 1 by {
        ModSmall(if a == 0 then n - 1 else a - 1, n);
      }
      assert a == 0 ==> n - 1 == a - 1 + 1 * n;
      assert a > 0 ==> a - 1 == a - 1 + 0 * n;
    } else {
      assert (a + 1) % n == if a + 1 == n then 0 else a + 1;
      assert a + 1 == n ==> 0 == a + 1 + -1 * n;
      assert a + 1 < n ==> a + 1 == a + 1 + 0 * n;
    }
  }

  lemma ModSmall(r: nat, n: nat)
    requires r < n
    ensures r % n == r && (r + n) % n == r
  {
  }

  lemma AroundTwice(from: int, mid: nat, more: int, to: nat, n: nat)
    requires Around(from, mid, n) && Around(mid + more, to, n)
    ensures Around(from + more, to, n)
  {
    var a: int :| mid == from + a * n;
    var b: int :| to == mid + more + b * n;
    Distribute(a, b, n);
    assert to == from + more + (a + b) * n;
  }

  lemma Distribute(a: int, b: int, n: int)
    ensures a * n + b * n == (a + b) * n
  {
  }

  /** Any batch of arrows and Tabs moves the selection by its net count, around the list, and changes nothing else. */
  lemma {:induction false} ArrowsCycle(edit: Editor, v: View, presses: seq<Press>, at: nat, changed: bool)
    requires v.Good() && v.items != []
    requires forall i :: 0 <= i < |presses| ==> presses[i].key in {Down, Tab, Up}
    ensures var (w, outcome) := Handled(edit, v, presses, at, changed);
            && w == v.(selected := w.selected)
            && Around(v.selected + Net(presses), w.selected, |v.items|)
            && outcome == if changed || presses != [] then Switched else Nothing
    decreases |presses|
  {
    if presses == [] {
      assert v.selected == v.selected + 0 * |v.items|;
    } else {
      var key, next := presses[0].key, at + presses[0].Width();
      var w := Typed(edit, v, key).0;
      AroundStep(v.selected, key == Up, |v.items|);
      ArrowsCycle(edit, w, presses[1..], next, true);
      AroundTwice(if key == Up then v.selected - 1 else v.selected + 1, w.selected, Net(presses[1..]),
                  Handled(edit, w, presses[1..], next, true).0.selected, |v.items|);
    }
  }

  // ----- The picker as the client updates it

  class Picker {
    var query: string
    var cursor: nat
    var scroll: nat
    var catalog: seq<Item>
    var items: seq<Item>
    var selected: nat

    ghost function Value(): View
      reads this
    {
      View(query, cursor, scroll, catalog, items, selected)
    }

    constructor (catalog: seq<Item>)
      ensures Value() == Opened(catalog) && Value().Good()
    {
      query, cursor, scroll, selected := [], 0, 0, 0;
      this.catalog, items := catalog, catalog;
      EverythingMatchesNothing(catalog);
    }

    method Refilter()
      modifies this`items
      ensures items == Filter(query, catalog)
    {
      items := [];
      var rest := catalog;
      while rest != []
        invariant Filter(query, catalog) == items + Filter(query, rest)
        decreases |rest|
      {
        if FuzzyMatch(query, rest[0].name) {
          items := items + [rest[0]];
        }
        rest := rest[1..];
      }
    }

    method Type(edit: Editor, key: Key) returns (changed: bool)
      modifies this
      ensures (Value(), changed) == Typed(edit, old(Value()), key)
    {
      if (key == Down || key == Tab) && items != [] {
        selected, changed := (selected + 1) % |items|, true;
      } else if key == Up && items != [] {
        selected, changed := (selected + |items| - 1) % |items|, true;
      } else {
        var (text, position, edited) := edit(query, cursor, key);
        cursor, changed := position, edited;
        if edited {
          query := text;
          Refilter();
          selected := 0;
        }
      }
    }

    method Handle(edit: Editor, presses: seq<Press>) returns (outcome: Outcome)
      requires Value().Good()
      modifies this
      ensures (Value(), outcome) == Handled(edit, old(Value()), presses, 0, false)
      ensures Value().Good() && (outcome.Run? ==> selected < |items|)
    {
      HandledKeepsGood(edit, Value(), presses, 0, false);
      var changed, rest := false, presses;
      var at: nat := 0;
      while rest != []
        invariant Handled(edit, old(Value()), presses, 0, false) == Handled(edit, Value(), rest, at, changed)
        decreases |rest|
      {
        var key := rest[0].key;
        at := at + rest[0].Width();
        if key == Escape || key == Cancel {
          return Close;
        } else if key == Enter {
          if items != [] {
            return Run(at);
          }
        } else {
          var now := Type(edit, key);
          changed := changed || now;
        }
        rest := rest[1..];
      }
      outcome := if changed then Switched else Nothing;
    }

    /** New Projects replace the old ones; the selection stays on its entry if the entry is still listed. */
    method RefreshProjects(projects: seq<Item>)
      modifies this
      ensures Value() == Refreshed(old(Value()), projects) && Value().Good()
    {
      RefreshedKeepsGood(Value(), projects);
      var previous := if selected < |items| then Some(items[selected].Target()) else None;
      catalog := WithoutProjects(catalog) + projects;
      Refilter();
      var found := if previous.Some? then FirstWithTarget(previous.value, items) else None;
      selected := if found.Some? then found.value else 0;
    }

    /** The window for a screen of `rows` rows, remembered for the next time. */
    method Show(rows: nat) returns (start: nat)
      modifies this`scroll
      ensures Value() == Shown(old(Value()), rows) && scroll == start
      ensures start <= selected < start + VisibleRows(rows)
    {
      WindowShowsSelection(scroll, |items|, selected, VisibleRows(rows));
      var visible := VisibleRows(rows);
      var last := if |items| < visible then 0 else |items| - visible;
      start := if scroll < last then scroll else last;
      if selected < start {
        start := selected;
      }
      if selected >= start + visible {
        start := selected + 1 - visible;
      }
      scroll := start;
    }
  }
}
