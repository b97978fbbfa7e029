/**
 * The side bar: the buttons it shows in home and editor mode, which of them
 * are disabled for an anonymous visitor, which one is highlighted, and what a
 * click does. A click's effect is returned as an outcome instead of being
 * performed, and the optional callbacks are flags saying whether each was
 * passed.
 */
module VisionSidebar {
  import opened Wrappers

  datatype ItemId = Public | Mine | Trending | Create | Edit | Preview

  datatype Mode = Home | Editor

  /**
   * A button. `action` is the route its own click handler navigates to; of
   * all the buttons only "create" has one.
   */
  datatype Item = Item(id: ItemId, caption: string, requiresAuth: bool, action: Option<string>)

  /**
   * The props that decide behaviour; each callback is present or absent, and
   * an omitted `mode` is home.
   */
  datatype Props = Props(
    activeTab: Option<ItemId>,
    hasOnTabChange: bool,
    mode: Mode,
    editorActiveTab: Option<ItemId>,
    hasOnEditorTabChange: bool)

  /** What a click does. */
  datatype Outcome =
    | Navigate(path: string)
    | EditorTabChange(tab: ItemId)
    | TabChange(tab: ItemId)
    | NoEffect

  const LoginPath: string := "/login"
  const CreatePath: string := "/create"

  const HomeItems: seq<Item> := [
    Item(Public, "公开分享", false, None),
    Item(Mine, "我的创作", true, None),
    Item(Trending, "热门趋势", false, None),
    Item(Create, "创建新的", true, Some(CreatePath))
  ]

  const EditorItems: seq<Item> := [
    Item(Edit, "编辑", false, None),
    Item(Preview, "预览", false, None)
  ]

  /** The buttons shown, in order: edit and preview in editor mode, the four home buttons otherwise. */
  function SidebarItems(mode: Mode): (items: seq<Item>)
    ensures mode == Editor ==> |items| == 2 && items[0].id == Edit && items[1].id == Preview
    ensures mode == Home ==> (|items| == 4 && items[0].id == Public && items[1].id == Mine
      && items[2].id == Trending && items[3].id == Create)
    ensures forall k :: 0 <= k < |items| ==> (items[k].requiresAuth <==> items[k].id in {Mine, Create})
    ensures forall k :: 0 <= k < |items| ==> (items[k].action.Some? <==> items[k].id == Create)
    ensures forall k :: 0 <= k < |items| ==> items[k].action.Some? ==> items[k].action.value == CreatePath
  {
    if mode == Editor then EditorItems else HomeItems
  }

  /** A button is disabled exactly when it needs a signed-in user and there is none. */
  predicate IsDisabled(item: Item, isLoggedIn: bool)
  {
    item.requiresAuth && !isLoggedIn
  }

  /** `handleItemClick`: the auth gate, then the editor tabs, then the item's action or the home tab. */
  function HandleItemClick(props: Props, isLoggedIn: bool, item: Item): (outcome: Outcome)
    ensures IsDisabled(item, isLoggedIn) ==> outcome == Navigate(LoginPath)
    ensures !IsDisabled(item, isLoggedIn) && props.mode == Editor && props.hasOnEditorTabChange ==>
      outcome == (if item.id in {Edit, Preview} then EditorTabChange(item.id) else NoEffect)
    ensures outcome.EditorTabChange? ==> props.mode == Editor && outcome.tab == item.id
    ensures !IsDisabled(item, isLoggedIn) && !(props.mode == Editor && props.hasOnEditorTabChange) ==>
      outcome == (if item.action.Some? then Navigate(item.action.value)
                  else if item.id != Create && props.hasOnTabChange then TabChange(item.id)
                  else NoEffect)
  {
    if item.requiresAuth && !isLoggedIn then Navigate(LoginPath)
    else if props.mode == Editor && props.hasOnEditorTabChange then
      (if item.id == Edit || item.id == Preview then EditorTabChange(item.id) else NoEffect)
    else if item.action.Some? then Navigate(item.action.value)
    else if item.id != Create && props.hasOnTabChange then TabChange(item.id)
    else NoEffect
  }

  /** The button's own handler: a disabled button does nothing, any other runs `handleItemClick`. */
  function Click(props: Props, isLoggedIn: bool, item: Item): (outcome: Outcome)
    ensures IsDisabled(item, isLoggedIn) ==> outcome == NoEffect
    ensures !IsDisabled(item, isLoggedIn) ==> outcome == HandleItemClick(props, isLoggedIn, item)
  {
    if IsDisabled(item, isLoggedIn) then NoEffect else HandleItemClick(props, isLoggedIn, item)
  }

  /** The highlighted button: the editor tab in editor mode, the home tab otherwise. */
  function GetActiveState(props: Props, item: Item): (active: bool)
    ensures props.mode == Editor ==> (active <==> props.editorActiveTab == Some(item.id))
    ensures props.mode == Home ==> (active <==> props.activeTab == Some(item.id))
  {
    if props.mode == Editor then props.editorActiveTab == Some(item.id) else props.activeTab == Some(item.id)
  }

  /**
   * The redirect to the login page is dead code: the buttons that need a
   * signed-in user are exactly the disabled ones, whose handler never
   * reaches `handleItemClick`, and no button's action goes there.
   */
  lemma {:induction false} LoginRedirectUnreachable(props: Props, isLoggedIn: bool, k: int)
    requires 0 <= k < |SidebarItems(props.mode)|
    ensures Click(props, isLoggedIn, SidebarItems(props.mode)[k]) != Navigate(LoginPath)
  {
    var item := SidebarItems(props.mode)[k];
    if !IsDisabled(item, isLoggedIn) {
      assert item.action.Some? ==> item.action.value == CreatePath;
      assert CreatePath != LoginPath by { assert CreatePath[1] != LoginPath[1]; }
    }
  }

  /** In editor mode with an editor callback no button ever changes the home tab. */
  lemma EditorModeNeverChangesHomeTab(props: Props, isLoggedIn: bool, item: Item)
    requires props.mode == Editor && props.hasOnEditorTabChange
    ensures !Click(props, isLoggedIn, item).TabChange?
    ensures !HandleItemClick(props, isLoggedIn, item).TabChange?
  {
  }
}
