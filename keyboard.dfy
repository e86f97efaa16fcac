/**
 * Keyboard navigation (src/modules/keyboard-shortcuts.js): arrow keys over
 * the grid of bookmark cards, the bookmark pop-up menu, Tab cycling in the
 * page and in the two modals, and the keydown dispatcher with its Escape
 * priorities and single-letter shortcuts.
 *
 * The page is passed in as a value describing the elements the handlers
 * query (`document.activeElement` doubles as the event target); the
 * module-level indices are fields of `Navigator`.
 */
module Keyboard {
  import opened Js

  /** An element the handlers look at. `bookmarkIndex` is a card's `data-bookmark-index`. */
  datatype Element = Element(id: string, tag: string, isCard: bool, contentEditable: bool, bookmarkIndex: int)

  /** The container that holds the focused card, with what fixes its row width. */
  datatype Container = Container(cards: seq<Element>, width: nat, isGrid: bool, gridTemplate: string)

  /** What the page looks like when a key goes down. */
  datatype Page = Page(
    editModalOpen: bool,
    settingsModalOpen: bool,
    focused: Element,
    focusables: seq<Element>,          // getFocusableElements()
    editElements: seq<Element>,        // the visible, enabled edit-modal fields
    settingsElements: seq<Element>,    // the visible, enabled settings-modal controls
    container: Option<Container>,      // the focused card's container, if one is found
    sectionFirstCard: Option<Element>, // the first card of the focused card's section
    cardCount: nat,                    // bookmarkCards.length
    hasSearchInput: bool,
    hasFilter: bool,
    hasSettings: bool)                 // both the settings button and modal exist

  /** `s.indexOf(e)`. */
  function IndexOf(s: seq<Element>, e: Element): (r: int)
    ensures -1 <= r < |s|
    ensures r >= 0 ==> s[r] == e && forall j :: 0 <= j < r ==> s[j] != e
    ensures r == -1 ==> e !in s
  {
    if s == [] then -1
    else if s[0] == e then 0
    else var i := IndexOf(s[1..], e); if i == -1 then -1 else i + 1
  }

  // ------------------------------------------------------------ arrow keys over cards

  const CardWidth: nat := 240

  /**
   * Cards per row: `max(1, floor(width / 240))`, or for a CSS grid with a
   * column template the number of its space-separated columns.
   */
  function CardsPerRow(c: Container): (r: nat)
    ensures r >= 1
  {
    var byWidth := if c.width / CardWidth > 1 then c.width / CardWidth else 1;
    if c.isGrid && c.gridTemplate != "" && c.gridTemplate != "none" then |Split(c.gridTemplate, ' ')|
    else byWidth
  }

  predicate IsArrow(key: string) {
    key == "ArrowRight" || key == "ArrowLeft" || key == "ArrowDown" || key == "ArrowUp"
  }

  /** The index an arrow key moves to from card i of n, k cards to a row; None for other keys. */
  function ArrowTarget(key: string, i: nat, n: nat, k: nat): (r: Option<nat>)
    requires i < n && k >= 1
    ensures r.Some? <==> IsArrow(key)
    ensures r.Some? ==> r.value < n
  {
    if key == "ArrowRight" then Some((i + 1) % n)
    else if key == "ArrowLeft" then Some(if i == 0 then n - 1 else i - 1)
    else if key == "ArrowDown" then Some(if i + k < n - 1 then i + k else n - 1)
    else if key == "ArrowUp" then Some(if i >= k then i - k else 0)
    else None
  }

  /** Right and Left wrap around and undo each other. */
  lemma RightLeftInverse(i: nat, n: nat, k: nat)
    requires i < n && k >= 1
    ensures var r := ArrowTarget("ArrowRight", i, n, k).value;
      ArrowTarget("ArrowLeft", r, n, k).value == i
    ensures var l := ArrowTarget("ArrowLeft", i, n, k).value;
      ArrowTarget("ArrowRight", l, n, k).value == i
    ensures i == n - 1 ==> ArrowTarget("ArrowRight", i, n, k).value == 0
  {
    WrapNext(i, n);
    var l := if i == 0 then n - 1 else i - 1;
    WrapNext(l, n);
  }

  /** `(i + 1) % n` steps to the next index, or back to 0 from the last. */
  lemma WrapNext(i: nat, n: nat)
    requires i < n
    ensures (i + 1) % n == if i == n - 1 then 0 else i + 1
  {
    if i == n - 1 {
      assert (i + 1) % n == n % n == 0;
    } else {
      assert 0 <= i + 1 < n;
    }
  }

  /** Down and Up move a whole row and clamp at the ends instead of wrapping. */
  lemma UpDownClamp(i: nat, n: nat, k: nat)
    requires i < n && k >= 1
    ensures var d := ArrowTarget("ArrowDown", i, n, k).value;
      i <= d && (d == i + k || d == n - 1) && (i + k <= n - 1 ==> d == i + k)
    ensures var u := ArrowTarget("ArrowUp", i, n, k).value;
      u <= i && (u == i - k || u == 0) && (i >= k ==> u == i - k)
    ensures i + k <= n - 1 ==> ArrowTarget("ArrowUp", i + k, n, k).value == i
  {
  }

  /** The card an arrow key moves to, or None when handleBookmarkNavigation returns false. */
  function BookmarkNavTarget(key: string, page: Page): (r: Option<nat>)
    ensures r.Some? ==> page.container.Some? && r.value < |page.container.value.cards|
    ensures r.Some? ==> IsArrow(key) && page.cardCount > 0 && page.focused.isCard
  {
    if page.cardCount == 0 || !page.focused.isCard then None
    else match page.container
      case None => None
      case Some(c) =>
        var i := IndexOf(c.cards, page.focused);
        if i == -1 then None else ArrowTarget(key, i, |c.cards|, CardsPerRow(c))
  }

  // ------------------------------------------------------------ Tab

  /** Tab goes to (i+1) mod n, Shift+Tab to i-1 or, from i <= 0, to the last. */
  function TabTarget(i: int, n: nat, shift: bool): (r: nat)
    requires n > 0 && -1 <= i < n
    ensures r < n
    ensures !shift ==> r == (if i == n - 1 then 0 else i + 1)
    ensures shift ==> r == (if i <= 0 then n - 1 else i - 1)
  {
    if shift then (if i <= 0 then n - 1 else i - 1)
    else (i + 1) % n
  }

  /** An unknown current element counts as index -1: Tab then goes to the first element. */
  lemma TabFromUnknown(n: nat)
    requires n > 0
    ensures TabTarget(-1, n, false) == 0 && TabTarget(-1, n, true) == n - 1
  {
  }

  /** Tab and Shift+Tab undo each other. */
  lemma TabShiftTabInverse(i: nat, n: nat)
    requires i < n
    ensures TabTarget(TabTarget(i, n, false), n, true) == i
    ensures TabTarget(TabTarget(i, n, true), n, false) == i
  {
  }

  datatype TabResult =
    | TabUnhandled              // not handled: a modal with no focusable element
    | TabFocus(element: Element)
    | TabCrash                  // the page has no focusable element: `focusableElements[NaN].classList` throws

  /** The modal Tab handlers: false with nothing to focus, else the next element cyclically. */
  function ModalTab(elements: seq<Element>, focused: Element, shift: bool): (r: TabResult)
    ensures r.TabUnhandled? <==> elements == []
    ensures r.TabFocus? ==> r.element in elements
  {
    if elements == [] then TabUnhandled
    else TabFocus(elements[TabTarget(IndexOf(elements, focused), |elements|, shift)])
  }

  /**
   * handleTabNavigation on a Tab key: the settings modal first, then the
   * edit modal, then the page's focusable elements, where a card not in
   * the list stands for its section's first card.
   */
  function TabOutcome(page: Page, shift: bool): (r: TabResult)
    ensures !page.settingsModalOpen && !page.editModalOpen ==> (r.TabCrash? <==> page.focusables == [])
    ensures r.TabFocus? && !page.settingsModalOpen && !page.editModalOpen ==> r.element in page.focusables
  {
    if page.settingsModalOpen then ModalTab(page.settingsElements, page.focused, shift)
    else if page.editModalOpen then ModalTab(page.editElements, page.focused, shift)
    else
      var i0 := IndexOf(page.focusables, page.focused);
      var i := if i0 == -1 && page.focused.isCard && page.sectionFirstCard.Some?
        then IndexOf(page.focusables, page.sectionFirstCard.value) else i0;
      if page.focusables == [] then TabCrash
      else TabFocus(page.focusables[TabTarget(i, |page.focusables|, shift)])
  }

  // ------------------------------------------------------------ the dispatcher

  datatype Action =
    | SaveEdit
    | EditCard | DeleteCard | CaptureCard | OpenCard
    | TabMoved(element: Element) | TabFailed
    | ArrowMoved(index: nat)
    | CloseEditModal | CloseSettingsModal | CloseMenuAction
    | BlurSearch | BlurFilter | BlurFocused | NothingToUnfocus
    | IgnoredWhileTyping
    | FocusSearch | ToggleFilter(open: bool) | Reload | OpenSettings
    | NoAction

  /** Escape, first match wins. */
  function EscapeAction(page: Page, menuOpen: bool): Action {
    if page.editModalOpen then CloseEditModal
    else if page.settingsModalOpen then CloseSettingsModal
    else if menuOpen then CloseMenuAction
    else if page.hasSearchInput && page.focused.id == "search-input" then BlurSearch
    else if page.hasFilter && page.focused.id == "filter" then BlurFilter
    else if page.focused.tag != "BODY" then BlurFocused
    else NothingToUnfocus
  }

  /** The event target is an input, a textarea or editable, other than the filter select. */
  predicate IsTyping(e: Element) {
    (e.tag == "INPUT" || e.tag == "TEXTAREA" || e.contentEditable) && e.id != "filter"
  }

  /** `key.toLowerCase() === c` for a letter c. */
  predicate IsLetterKey(key: string, c: char)
    ensures IsLetterKey(key, c) ==> Lower(key) == [c]
  {
    |key| == 1 && LowerChar(key[0]) == c
  }

  /** The keys after the typing guard. */
  function ShortcutAction(key: string, page: Page): Action {
    if IsLetterKey(key, 's') then FocusSearch
    else if IsLetterKey(key, 'f') then (if page.hasFilter then ToggleFilter(page.focused.id != "filter") else NoAction)
    else if IsLetterKey(key, 'r') then Reload
    else if IsLetterKey(key, 'h') then (if page.hasSettings then OpenSettings else NoAction)
    else if key == "/" && page.hasSearchInput && page.focused.id != "search-input" then FocusSearch
    else NoAction
  }

  /** The keys a focused card answers to, before anything else. */
  function CardAction(key: string): Option<Action> {
    if IsLetterKey(key, 'e') then Some(EditCard)
    else if key == "Delete" || key == "Backspace" then Some(DeleteCard)
    else if IsLetterKey(key, 'c') then Some(CaptureCard)
    else if key == "Enter" then Some(OpenCard)
    else None
  }

  /** Enter in the edit modal's fields saves, then a focused card's own keys. */
  function EarlyAction(key: string, page: Page): (r: Option<Action>)
    ensures r.Some? ==> r.value in {SaveEdit, EditCard, DeleteCard, CaptureCard, OpenCard}
  {
    var t := page.focused;
    if page.editModalOpen && key == "Enter" && (t.id == "edit-title" || t.id == "edit-url" || t.id == "save-edit") then Some(SaveEdit)
    else if t.isCard then CardAction(key)
    else None
  }

  /** After the Tab and arrow handlers: Escape, the typing guard, the shortcuts. */
  function LateAction(key: string, page: Page, menuOpen: bool): (r: Action)
    ensures !r.TabMoved? && !r.TabFailed? && !r.ArrowMoved?
  {
    if key == "Escape" then EscapeAction(page, menuOpen)
    else if IsTyping(page.focused) then IgnoredWhileTyping
    else ShortcutAction(key, page)
  }

  /** The keydown listener of setupKeyboardListeners, as a decision. */
  function Dispatch(key: string, shift: bool, page: Page, menuOpen: bool): Action {
    if EarlyAction(key, page).Some? then EarlyAction(key, page).value
    else if key == "Tab" && !TabOutcome(page, shift).TabUnhandled? then
      (match TabOutcome(page, shift) case TabFocus(e) => TabMoved(e) case _ => TabFailed)
    else if BookmarkNavTarget(key, page).Some? then ArrowMoved(BookmarkNavTarget(key, page).value)
    else LateAction(key, page, menuOpen)
  }

  /** Escape always reaches the priority chain: edit modal, settings modal, menu, search, filter, anything focused. */
  lemma EscapePriority(shift: bool, page: Page, menuOpen: bool)
    ensures Dispatch("Escape", shift, page, menuOpen) == EscapeAction(page, menuOpen)
    ensures page.editModalOpen ==> Dispatch("Escape", shift, page, menuOpen) == CloseEditModal
    ensures !page.editModalOpen && page.settingsModalOpen ==> Dispatch("Escape", shift, page, menuOpen) == CloseSettingsModal
    ensures !page.editModalOpen && !page.settingsModalOpen && menuOpen ==> Dispatch("Escape", shift, page, menuOpen) == CloseMenuAction
  {
    CardKeys();
  }

  /** While typing in an input other than the filter, the letter shortcuts do nothing. */
  lemma ShortcutsIgnoredWhileTyping(key: string, shift: bool, page: Page, menuOpen: bool)
    requires key in {"s", "f", "r", "h", "S", "F", "R", "H", "/"}
    requires IsTyping(page.focused)
    ensures Dispatch(key, shift, page, menuOpen) == IgnoredWhileTyping
  {
  }

  /** On a focused card its own keys come first (Enter in the edit modal's fields aside). */
  lemma CardKeysFirst(key: string, shift: bool, page: Page, menuOpen: bool)
    requires page.focused.isCard && !page.editModalOpen && CardAction(key).Some?
    ensures Dispatch(key, shift, page, menuOpen) == CardAction(key).value
  {
  }

  /** E/e edits, Delete/Backspace deletes, C/c captures, Enter opens; Tab and the arrows are not card keys. */
  lemma CardKeys()
    ensures CardAction("E") == Some(EditCard) && CardAction("e") == Some(EditCard)
    ensures CardAction("Delete") == Some(DeleteCard) && CardAction("Backspace") == Some(DeleteCard)
    ensures CardAction("C") == Some(CaptureCard) && CardAction("Enter") == Some(OpenCard)
    ensures CardAction("Tab").None? && CardAction("Escape").None? && CardAction("ArrowUp").None?
  {
  }

  // ------------------------------------------------------------ the navigator state

  /** The module-level indices and the length of the menu list. */
  class Navigator {
    var currentBookmarkIndex: int
    var currentMenuIndex: int
    var menuCount: nat

    /** The menu index points into a non-empty menu, or is -1 with no menu. */
    ghost predicate Valid()
      reads this
    {
      (menuCount == 0 ==> currentMenuIndex == -1) && (menuCount > 0 ==> 0 <= currentMenuIndex < menuCount)
    }

    constructor()
      ensures Valid() && currentBookmarkIndex == -1 && menuCount == 0
    {
      currentBookmarkIndex := -1;
      currentMenuIndex := -1;
      menuCount := 0;
    }

    /** setupBookmarkMenuNavigation: a menu with buttons takes them over with the first selected. */
    method OpenMenu(menuPresent: bool, buttons: nat)
      requires Valid()
      modifies this
      ensures Valid() && currentBookmarkIndex == old(currentBookmarkIndex)
      ensures menuPresent && buttons > 0 ==> menuCount == buttons && currentMenuIndex == 0
      ensures !(menuPresent && buttons > 0) ==> menuCount == old(menuCount) && currentMenuIndex == old(currentMenuIndex)
    {
      if !menuPresent || buttons == 0 {
        return;
      }
      menuCount := buttons;
      currentMenuIndex := 0;
    }

    /** closeMenu. */
    method CloseMenu()
      modifies this
      ensures Valid() && menuCount == 0 && currentMenuIndex == -1
      ensures currentBookmarkIndex == old(currentBookmarkIndex)
    {
      menuCount := 0;
      currentMenuIndex := -1;
    }

    /**
     * handleMenuNavigation: Down and Up cycle through the menu, Enter and
     * Space are taken (the item is clicked), Escape closes the menu; an
     * empty menu takes nothing.
     */
    method HandleMenuNavigation(key: string) returns (handled: bool)
      requires Valid()
      modifies this
      ensures Valid() && currentBookmarkIndex == old(currentBookmarkIndex)
      ensures handled <==> old(menuCount) > 0 && key in {"ArrowDown", "ArrowUp", "Enter", " ", "Escape"}
      ensures handled && key == "ArrowDown" ==> currentMenuIndex == (old(currentMenuIndex) + 1) % old(menuCount)
      ensures handled && key == "ArrowUp" ==>
        currentMenuIndex == (if old(currentMenuIndex) == 0 then old(menuCount) - 1 else old(currentMenuIndex) - 1)
      ensures handled && key == "Escape" ==> menuCount == 0
      ensures !(handled && key == "Escape") ==> menuCount == old(menuCount)
      ensures !(handled && key in {"ArrowDown", "ArrowUp", "Escape"}) ==> currentMenuIndex == old(currentMenuIndex)
    {
      if menuCount == 0 {
        return false;
      }
      handled := false;
      if key == "ArrowDown" || key == "ArrowUp" {
        if key == "ArrowDown" {
          currentMenuIndex := (currentMenuIndex + 1) % menuCount;
        } else {
          currentMenuIndex := if currentMenuIndex == 0 then menuCount - 1 else currentMenuIndex - 1;
        }
        handled := true;
      } else if key == "Enter" || key == " " {
        handled := true;
      } else if key == "Escape" {
        CloseMenu();
        handled := true;
      }
    }

    /**
     * handleBookmarkNavigation: moves to the arrow key's target card in the
     * focused card's container and records its index; otherwise false and
     * nothing changes.
     */
    method HandleBookmarkNavigation(key: string, page: Page) returns (handled: bool)
      modifies this
      ensures handled <==> BookmarkNavTarget(key, page).Some?
      ensures handled ==> currentBookmarkIndex == IndexOf(page.container.value.cards,
        page.container.value.cards[BookmarkNavTarget(key, page).value])
      ensures !handled ==> currentBookmarkIndex == old(currentBookmarkIndex)
      ensures currentMenuIndex == old(currentMenuIndex) && menuCount == old(menuCount)
    {
      if page.cardCount == 0 || !page.focused.isCard || page.container.None? {
        return false;
      }
      var c := page.container.value;
      var current := IndexOf(c.cards, page.focused);
      if current == -1 {
        return false;
      }
      var target := ArrowTarget(key, current, |c.cards|, CardsPerRow(c));
      if target.None? {
        return false;
      }
      currentBookmarkIndex := IndexOf(c.cards, c.cards[target.value]);
      handled := true;
    }

    /** handleTabNavigation: a card that receives focus becomes the current bookmark. */
    method HandleTabNavigation(key: string, shift: bool, page: Page) returns (r: TabResult)
      modifies this
      ensures key != "Tab" ==> r == TabUnhandled
      ensures key == "Tab" ==> r == TabOutcome(page, shift)
      ensures r.TabFocus? && !page.settingsModalOpen && !page.editModalOpen && r.element.isCard
        ==> currentBookmarkIndex == r.element.bookmarkIndex
      ensures !(r.TabFocus? && !page.settingsModalOpen && !page.editModalOpen && r.element.isCard)
        ==> currentBookmarkIndex == old(currentBookmarkIndex)
      ensures currentMenuIndex == old(currentMenuIndex) && menuCount == old(menuCount)
    {
      if key != "Tab" {
        return TabUnhandled;
      }
      r := TabOutcome(page, shift);
      if r.TabFocus? && !page.settingsModalOpen && !page.editModalOpen && r.element.isCard {
        currentBookmarkIndex := r.element.bookmarkIndex;
      }
    }

    /**
     * The keydown listener: decides as `Dispatch` does; Tab and arrows
     * update the current bookmark, an arrow move and Escape close an open
     * menu; the menu index is otherwise never touched.
     */
    method KeyDown(key: string, shift: bool, page: Page) returns (action: Action)
      requires Valid()
      modifies this
      ensures Valid()
      ensures action == Dispatch(key, shift, page, old(menuCount) > 0)
      ensures action.CloseMenuAction? || (action.ArrowMoved? && old(menuCount) > 0) ==> menuCount == 0
      ensures !(action.CloseMenuAction? || action.ArrowMoved?) ==>
        menuCount == old(menuCount) && currentMenuIndex == old(currentMenuIndex)
      ensures !(action.TabMoved? || action.ArrowMoved?) ==> currentBookmarkIndex == old(currentBookmarkIndex)
      ensures action.ArrowMoved? ==>
        page.container.Some? && action.index < |page.container.value.cards| &&
        currentBookmarkIndex == IndexOf(page.container.value.cards, page.container.value.cards[action.index])
      ensures action.ArrowMoved? && old(menuCount) == 0 ==> menuCount == 0 && currentMenuIndex == old(currentMenuIndex)
      ensures action.TabMoved? && !page.settingsModalOpen && !page.editModalOpen && action.element.isCard
        ==> currentBookmarkIndex == action.element.bookmarkIndex
      ensures action.TabMoved? && !(!page.settingsModalOpen && !page.editModalOpen && action.element.isCard)
        ==> currentBookmarkIndex == old(currentBookmarkIndex)
    {
      var early := EarlyAction(key, page);
      if early.Some? {
        return early.value;
      }
      var tab := HandleTabNavigation(key, shift, page);
      if !tab.TabUnhandled? {
        action := if tab.TabFocus? then TabMoved(tab.element) else TabFailed;
        return;
      }
      var moved := HandleBookmarkNavigation(key, page);
      if moved {
        if menuCount > 0 {
          CloseMenu();
        }
        return ArrowMoved(BookmarkNavTarget(key, page).value);
      }
      action := LateAction(key, page, menuCount > 0);
      if action == CloseMenuAction {
        CloseMenu();
      }
    }
  }

  /** Cards in a container are distinct elements, so the recorded index is the target itself. */
  lemma RecordedIndexIsTarget(cards: seq<Element>, t: nat)
    requires t < |cards|
    requires forall a, b :: 0 <= a < b < |cards| ==> cards[a] != cards[b]
    ensures IndexOf(cards, cards[t]) == t
  {
  }
}
