/** The global UI store (src/store/uiStore.js): sidebar and modal flags and
    a bulk selection list, changed only through its actions. */
module UIStore {

  import opened Seqs

  datatype UIState = UIState(
    sidebarOpen: bool,
    smartCaptureOpen: bool,
    commandPaletteOpen: bool,
    selectedItems: seq<string>)

  const Initial: UIState := UIState(true, false, false, [])

  datatype Action =
    | ToggleSidebar
    | OpenSmartCapture
    | CloseSmartCapture
    | OpenCommandPalette
    | CloseCommandPalette
    | ToggleItemSelection(itemId: string)
    | ClearSelection
    | SelectAll(itemIds: seq<string>)

  /** The selection after `toggleItemSelection`: an absent id is appended,
      a present one is removed everywhere. */
  function ToggledSelection(selected: seq<string>, itemId: string): (r: seq<string>)
    ensures itemId in r <==> itemId !in selected
    ensures forall x :: x != itemId ==> (x in r <==> x in selected)
    ensures itemId !in selected ==> r == selected + [itemId]
  {
    if itemId in selected then RemoveAll(selected, itemId) else selected + [itemId]
  }

  /** One store update, described key by key: each key changes only under
      its own actions. */
  function Step(st: UIState, a: Action): (r: UIState)
    ensures r.sidebarOpen == if a.ToggleSidebar? then !st.sidebarOpen else st.sidebarOpen
    ensures r.smartCaptureOpen ==
      if a.OpenSmartCapture? then true else if a.CloseSmartCapture? then false else st.smartCaptureOpen
    ensures r.commandPaletteOpen ==
      if a.OpenCommandPalette? then true else if a.CloseCommandPalette? then false else st.commandPaletteOpen
    ensures r.selectedItems ==
      if a.ClearSelection? then []
      else if a.SelectAll? then a.itemIds
      else if a.ToggleItemSelection? then ToggledSelection(st.selectedItems, a.itemId)
      else st.selectedItems
  {
    match a
    case ToggleSidebar => st.(sidebarOpen := !st.sidebarOpen)
    case OpenSmartCapture => st.(smartCaptureOpen := true)
    case CloseSmartCapture => st.(smartCaptureOpen := false)
    case OpenCommandPalette => st.(commandPaletteOpen := true)
    case CloseCommandPalette => st.(commandPaletteOpen := false)
    case ToggleItemSelection(id) => st.(selectedItems := ToggledSelection(st.selectedItems, id))
    case ClearSelection => st.(selectedItems := [])
    case SelectAll(ids) => st.(selectedItems := ids)
  }

  /** Every action except the two toggles is a setter: repeating it changes
      nothing more. */
  lemma SettersIdempotent(st: UIState, a: Action)
    requires !a.ToggleSidebar? && !a.ToggleItemSelection?
    ensures Step(Step(st, a), a) == Step(st, a)
  {
  }

  /** Toggling the sidebar twice restores it. */
  lemma ToggleSidebarTwice(st: UIState)
    ensures Step(Step(st, ToggleSidebar), ToggleSidebar) == st
  {
  }

  /** Toggling an id twice restores a selection that lacked it exactly,
      and restores membership in every case. */
  lemma ToggleSelectionTwice(st: UIState, itemId: string)
    ensures var r := Step(Step(st, ToggleItemSelection(itemId)), ToggleItemSelection(itemId));
      && (itemId !in st.selectedItems ==> r == st)
      && (forall x :: x in r.selectedItems <==> x in st.selectedItems)
  {
    if itemId !in st.selectedItems {
      RemoveAllAppended(st.selectedItems, itemId);
    }
  }

  /** Toggling keeps a duplicate-free selection duplicate-free. */
  lemma ToggleKeepsDistinct(st: UIState, itemId: string)
    requires NoDup(st.selectedItems)
    ensures NoDup(Step(st, ToggleItemSelection(itemId)).selectedItems)
  {
    if itemId in st.selectedItems {
      RemoveAllKeepsNoDup(st.selectedItems, itemId);
    }
  }

  /** `selectAll` stores its argument verbatim, duplicates included. */
  lemma SelectAllKeepsDuplicates(st: UIState)
    ensures Step(st, SelectAll(["a", "a"])).selectedItems == ["a", "a"]
    ensures !NoDup(Step(st, SelectAll(["a", "a"])).selectedItems)
  {
    var s := Step(st, SelectAll(["a", "a"])).selectedItems;
    assert s[0] == s[1];
  }
}
