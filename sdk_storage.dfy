/** The browser's `localStorage` as both SDK contexts use it: one string per
    key, written, read and removed in place. */
module SdkStorage {
  import opened Wrappers

  /** JavaScript truthiness of a `string | null`, as both contexts test
      what they read back: `null` and "" are falsy. */
  predicate Truthy(value: Option<string>)
  {
    value.Some? && value.value != ""
  }

  class LocalStorage {
    var items: map<string, string>

    constructor(items: map<string, string>)
      ensures this.items == items
    {
      this.items := items;
    }

    /** `getItem`: `None` stands for `null`, an absent key. */
    function GetItem(key: string): (r: Option<string>)
      reads this
      ensures r.Some? <==> key in items
      ensures r.Some? ==> r.value == items[key]
    {
      if key in items then Some(items[key]) else None
    }

    /** `setItem`: replaces any earlier value of the key. */
    method SetItem(key: string, value: string)
      modifies this
      ensures items == old(items)[key := value]
      ensures GetItem(key) == Some(value)
    {
      items := items[key := value];
    }

    /** `removeItem`: no effect on an absent key. */
    method RemoveItem(key: string)
      modifies this
      ensures items == old(items) - {key}
      ensures GetItem(key) == None
    {
      items := items - {key};
    }
  }
}
