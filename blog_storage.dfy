/** The editor's draft slot in the browser's local storage
    (src/utils/blogStorage.ts): one fixed key, read with `''` as the default
    and written without ever reporting a failure. */
module BlogStorage {

  const ContentKey: string := "admin_blog_content"

  /** What `localStorage.getItem(ContentKey) || ''` yields, or `''` outside a
      browser or when storage access throws. */
  function LoadFrom(hasWindow: bool, blocked: bool, items: map<string, string>): string {
    if !hasWindow || blocked then ""
    else if ContentKey in items then items[ContentKey]
    else ""
  }

  /** The items after `saveBlogContentToStorage(content)`; outside a browser,
      or when `setItem` throws (storage blocked or full), they are unchanged. */
  function SaveTo(hasWindow: bool, blocked: bool, full: bool, items: map<string, string>, content: string)
    : map<string, string>
  {
    if !hasWindow || blocked || full then items else items[ContentKey := content]
  }

  /** A successful save is read back exactly: the round trip of a draft. */
  lemma LoadAfterSave(items: map<string, string>, content: string)
    ensures LoadFrom(true, false, SaveTo(true, false, false, items, content)) == content
  {
  }

  /** A save touches no key but the draft's. */
  lemma SaveKeepsOtherKeys(hasWindow: bool, blocked: bool, full: bool, items: map<string, string>, content: string)
    ensures var after := SaveTo(hasWindow, blocked, full, items, content);
      && after.Keys <= items.Keys + {ContentKey}
      && forall k :: k in items && k != ContentKey ==> k in after && after[k] == items[k]
  {
  }

  /** The last save wins, and saving the same text twice is saving it once. */
  lemma SaveOverwrites(items: map<string, string>, first: string, second: string)
    ensures SaveTo(true, false, false, SaveTo(true, false, false, items, first), second)
         == SaveTo(true, false, false, items, second)
  {
  }

  /** Without a window or with storage blocked, loading yields `''` and a save leaves nothing changed. */
  lemma NoStorage(hasWindow: bool, blocked: bool, full: bool, items: map<string, string>, content: string)
    requires !hasWindow || blocked
    ensures LoadFrom(hasWindow, blocked, items) == ""
    ensures SaveTo(hasWindow, blocked, full, items, content) == items
  {
  }

  /** A browser's storage as the two helpers see it. */
  class Storage {
    var hasWindow: bool
    var blocked: bool
    var items: map<string, string>

    constructor (hasWindow: bool, blocked: bool, items: map<string, string>)
      ensures this.hasWindow == hasWindow && this.blocked == blocked && this.items == items
    {
      this.hasWindow := hasWindow;
      this.blocked := blocked;
      this.items := items;
    }

    /** `loadBlogContentFromStorage()` (blogStorage.ts:3-12). */
    function Load(): (r: string)
      reads this
      ensures r == LoadFrom(hasWindow, blocked, items)
    {
      if !hasWindow then ""
      else if blocked then ""
      else if ContentKey in items && items[ContentKey] != "" then items[ContentKey]
      else ""
    }

    /** `saveBlogContentToStorage(content)` (blogStorage.ts:14-21); `full`
        says whether `setItem` throws for lack of quota. */
    method Save(content: string, full: bool)
      modifies this
      ensures items == SaveTo(old(hasWindow), old(blocked), full, old(items), content)
      ensures hasWindow == old(hasWindow) && blocked == old(blocked)
    {
      if !hasWindow {
        return;
      }
      if blocked || full {
        return;
      }
      items := items[ContentKey := content];
    }
  }
}
