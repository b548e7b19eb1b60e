/** The picker view's behaviour: the grid it shows, the cell it highlights,
    and what its buttons do to the bound symbol and to its presentation.

    `State` and `Step` describe one picker session as values; the class
    `SymbolPicker` is the view itself, whose button actions update its fields
    and the host's `Binding`, each proved to take the step `Step` describes.
 */
module Picker {
  import opened Catalog
  import opened Search
  import opened Layout

  /** The user's actions. `XmarkDismiss` is the close button of the
      non-macOS toolbar; `Cancel` and `Done` are the macOS buttons. */
  datatype Event =
    | TypeSearch(text: string)
    | Pick(symbol: Symbol)
    | XmarkDismiss
    | Cancel
    | Done

  /** Whether the picker shows explicit Cancel and Done buttons instead of
      dismissing itself on a pick: the `#else` branch of `#if !os(macOS)` in `body`. */
  predicate HasConfirmButtons(p: Platform) {
    p == MacOS
  }

  /** The bound symbol, the search field, and whether the sheet is still presented. */
  datatype State = State(selection: Symbol, searchText: string, open: bool)

  /** A freshly shown picker: the host's value, an empty search field, presented. */
  function Initial(binding: Symbol): State {
    State(binding, [], true)
  }

  /** The symbols drawn in the grid. */
  function VisibleSymbols(catalog: seq<Symbol>, s: State): seq<Symbol> {
    Filter(catalog, s.searchText)
  }

  /** The highlight test of a cell: its symbol is the bound value. */
  predicate IsHighlighted(cell: Symbol, s: State) {
    cell == s.selection
  }

  /** Whether the view offers event `e`: a presented sheet accepts typing,
      a tap on any visible cell, and its platform's own buttons. That a
      dismissed sheet takes no input at all is an assumption about the
      host, not something the button actions check. */
  predicate Enabled(p: Platform, catalog: seq<Symbol>, s: State, e: Event): (b: bool)
    ensures b ==> s.open
    ensures e.Pick? ==> (b <==> s.open && e.symbol in catalog && Matches(e.symbol, s.searchText))
    ensures b && (e == Cancel || e == Done) ==> p == MacOS
    ensures b && e == XmarkDismiss ==> p != MacOS
    ensures s.open && e.TypeSearch? ==> b
    ensures s.open && (e == Cancel || e == Done) && p == MacOS ==> b
    ensures s.open && e == XmarkDismiss && p != MacOS ==> b
  {
    s.open &&
    match e
    case TypeSearch(_) => true
    case Pick(x) =>
      FilterMembership(catalog, s.searchText, x);
      x in VisibleSymbols(catalog, s)
    case XmarkDismiss => !HasConfirmButtons(p)
    case Cancel => HasConfirmButtons(p)
    case Done => HasConfirmButtons(p)
  }

  /** The effect of one event. Field by field: only a pick or Cancel writes
      the binding, only typing changes the search text, and the sheet stays
      presented only after typing or a macOS pick; a closed sheet stays closed. */
  function Step(p: Platform, s: State, e: Event): (t: State)
    ensures t.selection == if e.Pick? then e.symbol else if e == Cancel then [] else s.selection
    ensures t.searchText == if e.TypeSearch? then e.text else s.searchText
    ensures t.open <==> s.open && (e.TypeSearch? || (e.Pick? && p == MacOS))
  {
    match e
    case TypeSearch(text) => s.(searchText := text)
    case Pick(x) =>
      if HasConfirmButtons(p) then s.(selection := x) else s.(selection := x, open := false)
    case XmarkDismiss => s.(open := false)
    case Cancel => s.(selection := [], open := false)
    case Done => s.(open := false)
  }

  /** The state after a sequence of events. */
  function Run(p: Platform, s: State, events: seq<Event>): State
    decreases |events|
  {
    if events == [] then s else Run(p, Step(p, s, events[0]), events[1..])
  }

  /** Every event of the sequence is offered when it happens. */
  predicate EnabledRun(p: Platform, catalog: seq<Symbol>, s: State, events: seq<Event>)
    decreases |events|
  {
    events == [] ||
    (Enabled(p, catalog, s, events[0]) && EnabledRun(p, catalog, Step(p, s, events[0]), events[1..]))
  }

  /** The symbol of the last `Pick` of the sequence, or `initial` when there is none. */
  function LastPick(events: seq<Event>, initial: Symbol): Symbol
    decreases |events|
  {
    if events == [] then initial
    else if events[|events| - 1].Pick? then events[|events| - 1].symbol
    else LastPick(events[..|events| - 1], initial)
  }

  // ---------------------------------------------------------------------------
  // Single steps

  /** Tapping a cell writes exactly its symbol into the binding, leaves the
      search text alone, closes the sheet except on macOS, and highlights
      exactly the cells showing that symbol, the tapped one among them. */
  lemma PickStep(p: Platform, catalog: seq<Symbol>, s: State, x: Symbol)
    requires Enabled(p, catalog, s, Pick(x))
    ensures Step(p, s, Pick(x)).selection == x
    ensures Step(p, s, Pick(x)).searchText == s.searchText
    ensures Step(p, s, Pick(x)).open <==> HasConfirmButtons(p)
    ensures x in VisibleSymbols(catalog, Step(p, s, Pick(x)))
    ensures forall c :: c in VisibleSymbols(catalog, Step(p, s, Pick(x))) ==>
                          (IsHighlighted(c, Step(p, s, Pick(x))) <==> c == x)
  {
  }

  /** Entries of a parsed catalog are never empty, so an empty binding highlights no cell. */
  lemma EmptyBindingHighlightsNothing(catalog: seq<Symbol>, s: State)
    requires WellFormed(catalog) && s.selection == []
    ensures forall c :: c in VisibleSymbols(catalog, s) ==> !IsHighlighted(c, s)
  {
    forall c | c in VisibleSymbols(catalog, s) ensures c != [] {
      FilterMembership(catalog, s.searchText, c);
    }
  }

  /** The highlighted cells of a grid are exactly those showing the bound
      symbol: one symbol when the bound value is in the grid, none otherwise. */
  lemma HighlightedCells(catalog: seq<Symbol>, s: State)
    ensures (set c | c in VisibleSymbols(catalog, s) && IsHighlighted(c, s)) ==
            if s.selection in catalog && Matches(s.selection, s.searchText) then {s.selection} else {}
  {
    FilterMembership(catalog, s.searchText, s.selection);
  }

  // ---------------------------------------------------------------------------
  // Whole sessions

  lemma {:induction false} RunAppend(p: Platform, s: State, events: seq<Event>, e: Event)
    ensures Run(p, s, events + [e]) == Step(p, Run(p, s, events), e)
    decreases |events|
  {
    if events == [] {
      assert [e][1..] == [];
    } else {
      assert (events + [e])[1..] == events[1..] + [e];
      RunAppend(p, Step(p, s, events[0]), events[1..], e);
    }
  }

  lemma {:induction false} EnabledRunAppend(p: Platform, catalog: seq<Symbol>, s: State, events: seq<Event>, e: Event)
    ensures EnabledRun(p, catalog, s, events + [e]) <==>
            EnabledRun(p, catalog, s, events) && Enabled(p, catalog, Run(p, s, events), e)
    decreases |events|
  {
    if events == [] {
      assert [e][1..] == [];
    } else {
      assert (events + [e])[1..] == events[1..] + [e];
      EnabledRunAppend(p, catalog, Step(p, s, events[0]), events[1..], e);
    }
  }

  /** Once the sheet is closed it takes no more events. */
  lemma ClosedIsFinal(p: Platform, catalog: seq<Symbol>, s: State, events: seq<Event>)
    requires !s.open && EnabledRun(p, catalog, s, events)
    ensures events == []
  {
  }

  /** What a session leaves in the binding: the empty string when it ended
      with Cancel, and otherwise the last symbol picked (the host's original
      value if nothing was picked). */
  lemma {:induction false} SessionBinding(p: Platform, catalog: seq<Symbol>, s: State, events: seq<Event>)
    requires EnabledRun(p, catalog, s, events)
    ensures Run(p, s, events).selection ==
            if events != [] && events[|events| - 1] == Cancel then [] else LastPick(events, s.selection)
    decreases |events|
  {
    if events != [] {
      var es, e := events[..|events| - 1], events[|events| - 1];
      assert events == es + [e];
      EnabledRunAppend(p, catalog, s, es, e);
      RunAppend(p, s, es, e);
      SessionBinding(p, catalog, s, es);
      if es != [] {
        var es', e' := es[..|es| - 1], es[|es| - 1];
        assert es == es' + [e'];
        RunAppend(p, s, es', e');
      }
    }
  }

  /** Off macOS the binding only changes as the sheet closes: while it is
      presented, the binding still holds the host's original value. */
  lemma {:induction false} CompactBindingFixedWhileOpen(p: Platform, catalog: seq<Symbol>, s: State, events: seq<Event>)
    requires !HasConfirmButtons(p) && EnabledRun(p, catalog, s, events)
    ensures Run(p, s, events).open ==> Run(p, s, events).selection == s.selection
    decreases |events|
  {
    if events != [] {
      var s' := Step(p, s, events[0]);
      CompactBindingFixedWhileOpen(p, catalog, s', events[1..]);
      if !s'.open {
        ClosedIsFinal(p, catalog, s', events[1..]);
      }
    }
  }

  /** The picker only ever writes a symbol of its catalog, or (macOS Cancel) the empty string. */
  lemma {:induction false} BindingOrigin(p: Platform, catalog: seq<Symbol>, s: State, events: seq<Event>)
    requires EnabledRun(p, catalog, s, events)
    ensures Run(p, s, events).selection == s.selection
         || Run(p, s, events).selection in catalog
         || (HasConfirmButtons(p) && Run(p, s, events).selection == [])
    decreases |events|
  {
    if events != [] {
      var s' := Step(p, s, events[0]);
      BindingOrigin(p, catalog, s', events[1..]);
      if events[0].Pick? {
        FilterMembership(catalog, s.searchText, events[0].symbol);
      }
    }
  }

  // ---------------------------------------------------------------------------
  // The view

  /** The host-owned string the picker is bound to; the picker reads and writes it in place. */
  class Binding {
    var value: Symbol

    constructor (value: Symbol)
      ensures this.value == value
    {
      this.value := value;
    }
  }

  /** One picker view: the two catalogs it loaded, the binding it was given,
      its search field and whether its sheet is presented. */
  class SymbolPicker {
    const platform: Platform
    const symbols15: seq<Symbol>
    const symbols16: seq<Symbol>
    const symbol: Binding
    var searchText: string
    var isPresented: bool

    /** `init(symbol:)`, with the two bundled files as inputs of the catalog loader. */
    constructor (symbol: Binding, platform: Platform, file15: Option<string>, file16: Option<string>)
      ensures this.symbol == symbol && this.platform == platform
      ensures symbols15 == LoadCatalog(file15) && symbols16 == LoadCatalog(file16)
      ensures Snapshot() == Initial(symbol.value)
    {
      this.symbol := symbol;
      this.platform := platform;
      symbols15 := LoadCatalog(file15);
      symbols16 := LoadCatalog(file16);
      searchText := [];
      isPresented := true;
    }

    /** The session state this view is in. */
    function Snapshot(): State
      reads this, symbol
    {
      State(symbol.value, searchText, isPresented)
    }

    /** The symbols of the grid; only `symbols15` is ever shown, all of it
        while the search field is empty, and always in catalog order. */
    function Grid(): (g: seq<Symbol>)
      reads this
      ensures searchText == [] ==> g == symbols15
      ensures forall x :: x in g <==> x in symbols15 && Matches(x, searchText)
      ensures IsSubsequence(g, symbols15)
    {
      FilterEmptySearch(symbols15);
      FilterIsSubsequence(symbols15, searchText);
      assert forall x :: x in Filter(symbols15, searchText) <==> x in symbols15 && Matches(x, searchText) by {
        forall x ensures x in Filter(symbols15, searchText) <==> x in symbols15 && Matches(x, searchText) {
          FilterMembership(symbols15, searchText, x);
        }
      }
      Filter(symbols15, searchText)
    }

    /** Editing the search field. */
    method TypeSearch(text: string)
      modifies this
      ensures searchText == text && isPresented == old(isPresented)
      ensures symbol.value == old(symbol.value)
      ensures Grid() == Filter(symbols15, text)
      ensures Snapshot() == Step(platform, old(Snapshot()), Event.TypeSearch(text))
    {
      searchText := text;
    }

    /** Asks the hosting sheet to close itself. */
    method Dismiss()
      modifies this
      ensures !isPresented && searchText == old(searchText)
    {
      isPresented := false;
    }

    /** The action of a grid cell's button. */
    method Pick(thisSymbol: Symbol)
      requires thisSymbol in Grid()
      modifies this, symbol
      ensures symbol.value == thisSymbol
      ensures isPresented == (old(isPresented) && HasConfirmButtons(platform))
      ensures searchText == old(searchText)
      ensures forall c :: c in Grid() ==> (IsHighlighted(c, Snapshot()) <==> c == thisSymbol)
      ensures Snapshot() == Step(platform, old(Snapshot()), Event.Pick(thisSymbol))
    {
      symbol.value := thisSymbol;
      if !HasConfirmButtons(platform) {
        Dismiss();
      }
    }

    /** The toolbar's xmark button (not on macOS). */
    method XmarkDismiss()
      requires !HasConfirmButtons(platform)
      modifies this
      ensures !isPresented
      ensures symbol.value == old(symbol.value) && searchText == old(searchText)
      ensures Snapshot() == Step(platform, old(Snapshot()), Event.XmarkDismiss)
    {
      Dismiss();
    }

    /** The macOS Cancel button. */
    method Cancel()
      requires HasConfirmButtons(platform)
      modifies this, symbol
      ensures !isPresented && symbol.value == []
      ensures searchText == old(searchText)
      ensures Snapshot() == Step(platform, old(Snapshot()), Event.Cancel)
    {
      symbol.value := [];
      Dismiss();
    }

    /** The macOS Done button. */
    method Done()
      requires HasConfirmButtons(platform)
      modifies this
      ensures !isPresented
      ensures symbol.value == old(symbol.value) && searchText == old(searchText)
      ensures Snapshot() == Step(platform, old(Snapshot()), Event.Done)
    {
      Dismiss();
    }
  }

  /** On macOS, tapping "star.fill" and then Cancel leaves the binding empty. */
  method DesktopCancelScenario(file15: Option<string>)
    requires "star.fill" in LoadCatalog(file15)
  {
    var binding := new Binding("square.and.arrow.up");
    var picker := new SymbolPicker(binding, MacOS, file15, None);
    FilterEmptySearch(picker.symbols15);
    picker.Pick("star.fill");
    assert binding.value == "star.fill" && picker.isPresented;
    picker.Cancel();
    assert binding.value == [] && !picker.isPresented;
  }

  /** On iOS, tapping "star.fill" sets the binding and closes the sheet. */
  method CompactPickScenario(file15: Option<string>)
    requires "star.fill" in LoadCatalog(file15)
  {
    var binding := new Binding([]);
    var picker := new SymbolPicker(binding, IOS, file15, None);
    FilterEmptySearch(picker.symbols15);
    picker.Pick("star.fill");
    assert binding.value == "star.fill" && !picker.isPresented;
  }
}
