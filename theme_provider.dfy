/** The theme state of the site (app/components/theme-provider.tsx): the
    chosen theme, its copy in `localStorage` under a fixed key, and the
    `data-theme` attribute of the document root. A stored theme is read
    back once after mount; every later change is written to both places. */
module ThemeProvider {
  import opened Wrappers

  /** The `id`s of `APP_THEMES`, in their listed order. */
  const ThemeIds: seq<string> := [
    "obsidian", "aurora", "sunset", "oceanic", "forest",
    "midnight", "desert", "rose", "nebula", "cyberpunk",
    "solstice", "daybreak", "glacier", "mint", "mono"
  ]

  const DefaultTheme := "mint"
  const StorageKey := "portfolio.theme"

  /** `APP_THEMES.some((item) => item.id === stored)` */
  predicate IsThemeId(t: string) {
    t in ThemeIds
  }

  /** The raw `localStorage.getItem(STORAGE_KEY)` value, when it names a
      theme. */
  function StoredTheme(storage: map<string, string>): Option<string> {
    if StorageKey in storage && IsThemeId(storage[StorageKey]) then Some(storage[StorageKey])
    else None
  }

  /** The theme a fresh mount settles on for the given storage. */
  function HydratedTheme(storage: map<string, string>): (r: string)
    ensures IsThemeId(r)
  {
    StoredTheme(storage).GetOr(DefaultTheme)
  }

  /** The storage a fresh mount leaves behind. */
  function HydratedStorage(storage: map<string, string>): map<string, string> {
    storage[StorageKey := HydratedTheme(storage)]
  }

  /** Hydration keeps a stored theme and otherwise falls back to the
      default; either way the key ends up naming a theme. */
  lemma HydratedThemeChoice(storage: map<string, string>)
    ensures StorageKey in storage && IsThemeId(storage[StorageKey]) ==>
      HydratedTheme(storage) == storage[StorageKey] && HydratedStorage(storage) == storage
    ensures !(StorageKey in storage && IsThemeId(storage[StorageKey])) ==>
      HydratedTheme(storage) == DefaultTheme && HydratedStorage(storage)[StorageKey] == DefaultTheme
    ensures IsThemeId(HydratedStorage(storage)[StorageKey])
  {
    assert IsThemeId(DefaultTheme) by {
      assert ThemeIds[13] == DefaultTheme;
    }
    if StorageKey in storage && IsThemeId(storage[StorageKey]) {
      assert HydratedStorage(storage) == storage[StorageKey := storage[StorageKey]];
    }
  }

  /** A theme that was saved is the theme of the next page load. */
  lemma ReloadKeepsTheme(storage: map<string, string>, t: string)
    requires IsThemeId(t)
    ensures HydratedTheme(storage[StorageKey := t]) == t
    ensures HydratedStorage(storage[StorageKey := t]) == storage[StorageKey := t]
  {
  }

  /** Loading the page again right after a mount changes nothing. */
  lemma HydrationIdempotent(storage: map<string, string>)
    ensures HydratedTheme(HydratedStorage(storage)) == HydratedTheme(storage)
    ensures HydratedStorage(HydratedStorage(storage)) == HydratedStorage(storage)
  {
    ReloadKeepsTheme(storage, HydratedTheme(storage));
  }

  class ThemeProvider {
    /** The `theme` state. */
    var theme: string
    /** The page's `localStorage`. */
    var storage: map<string, string>
    /** `document.documentElement.dataset.theme`. */
    var rootTheme: Option<string>
    /** The `isFirstPaint` ref. */
    var isFirstPaint: bool

    /** The first render: the state starts at the default theme. */
    constructor(storage: map<string, string>, rootTheme: Option<string>)
      ensures theme == DefaultTheme && isFirstPaint
      ensures this.storage == storage && this.rootTheme == rootTheme
    {
      theme := DefaultTheme;
      this.storage := storage;
      this.rootTheme := rootTheme;
      isFirstPaint := true;
    }

    /** State, root and storage agree on one theme. */
    predicate Synced()
      reads this
    {
      IsThemeId(theme) && rootTheme == Some(theme) && StorageKey in storage && storage[StorageKey] == theme
    }

    /** The mount effect: a stored theme goes to the root and the state and
        storage is left alone; anything else writes the default to storage
        and the root and leaves the state as it is. */
    method Hydrate()
      modifies this
      ensures isFirstPaint == old(isFirstPaint)
      ensures StoredTheme(old(storage)).Some? ==>
        theme == old(storage)[StorageKey] && rootTheme == Some(theme) && storage == old(storage)
      ensures StoredTheme(old(storage)).None? ==>
        theme == old(theme) && rootTheme == Some(DefaultTheme) && storage == old(storage)[StorageKey := DefaultTheme]
    {
      var stored := StoredTheme(storage);
      if stored.Some? {
        rootTheme := Some(stored.value);
        theme := stored.value;
        return;
      }
      storage := storage[StorageKey := DefaultTheme];
      rootTheme := Some(DefaultTheme);
    }

    /** The effect on `[theme]`: its first run only clears the flag, every
        later run writes the theme to the root and to storage. */
    method ChangeEffect()
      modifies this
      ensures !isFirstPaint && theme == old(theme)
      ensures old(isFirstPaint) ==> rootTheme == old(rootTheme) && storage == old(storage)
      ensures !old(isFirstPaint) ==> rootTheme == Some(theme) && storage == old(storage)[StorageKey := theme]
    {
      if isFirstPaint {
        isFirstPaint := false;
        return;
      }
      rootTheme := Some(theme);
      storage := storage[StorageKey := theme];
    }

    /** The context's `setTheme` after mount: a new value re-renders and so
        runs the change effect; the same value is a no-op. */
    method SetTheme(t: string)
      requires !isFirstPaint
      modifies this
      ensures theme == t && !isFirstPaint
      ensures t == old(theme) ==> rootTheme == old(rootTheme) && storage == old(storage)
      ensures t != old(theme) ==> rootTheme == Some(t) && storage == old(storage)[StorageKey := t]
      ensures old(Synced()) && IsThemeId(t) ==> Synced()
    {
      if t != theme {
        theme := t;
        ChangeEffect();
      }
    }

    /** The mount: both effects run after the first render in their
        declared order; when hydration changed the state, the re-render runs
        the change effect again. Afterwards everything is synced on the
        hydrated theme. */
    method Mount()
      requires isFirstPaint && theme == DefaultTheme
      modifies this
      ensures !isFirstPaint
      ensures theme == HydratedTheme(old(storage))
      ensures storage == HydratedStorage(old(storage))
      ensures Synced()
    {
      HydratedThemeChoice(storage);
      var rendered := theme;
      Hydrate();
      ChangeEffect();
      if theme != rendered {
        ChangeEffect();
      }
    }
  }

  /** The value the context hands out. */
  datatype ThemeContextValue = ThemeContextValue(theme: string)

  /** What a hook call gives: the context, or the error it throws. */
  datatype Hook<T> = Provided(value: T) | Thrown(message: string)

  const OutsideProvider := "useTheme must be used inside ThemeProvider"

  /** `useTheme()`: the context of the nearest provider, an error with no
      provider above. */
  function UseTheme(context: Option<ThemeContextValue>): (r: Hook<ThemeContextValue>)
    ensures r.Thrown? <==> context.None?
    ensures r.Thrown? ==> r.message == OutsideProvider
    ensures r.Provided? ==> r.value == context.value
  {
    match context
    case None => Thrown(OutsideProvider)
    case Some(value) => Provided(value)
  }
}
