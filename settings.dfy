/**
 * The settings store (src/context/SettingsContext.tsx): the connection settings,
 * loaded at start-up from the saved copy or the built-in default, merged with
 * partial updates and saved again after every change; and whether the settings
 * panel is open. The browser's local storage is the field `stored`.
 */
module Settings {
  import opened Types

  const DefaultSettings: ChatSettings :=
    ChatSettings("https://api.openai.com/v1/chat/completions", "", "gpt-3.5-turbo")

  /** A `Partial<ChatSettings>`: each field present or absent. */
  datatype PartialSettings = PartialSettings(baseUrl: Option<string>, apiKey: Option<string>, modelId: Option<string>)

  const NoChange: PartialSettings := PartialSettings(None, None, None)

  function AllFields(s: ChatSettings): PartialSettings {
    PartialSettings(Some(s.baseUrl), Some(s.apiKey), Some(s.modelId))
  }

  /** `{ ...prev, ...patch }`: a field present in the patch wins, an absent one keeps its old value. */
  function Merge(prev: ChatSettings, patch: PartialSettings): (r: ChatSettings)
    ensures patch.baseUrl.Some? ==> r.baseUrl == patch.baseUrl.value
    ensures patch.baseUrl.None? ==> r.baseUrl == prev.baseUrl
    ensures patch.apiKey.Some? ==> r.apiKey == patch.apiKey.value
    ensures patch.apiKey.None? ==> r.apiKey == prev.apiKey
    ensures patch.modelId.Some? ==> r.modelId == patch.modelId.value
    ensures patch.modelId.None? ==> r.modelId == prev.modelId
  {
    ChatSettings(patch.baseUrl.GetOr(prev.baseUrl), patch.apiKey.GetOr(prev.apiKey), patch.modelId.GetOr(prev.modelId))
  }

  /** The fields of `later` over those of `earlier`. */
  function Override(earlier: PartialSettings, later: PartialSettings): PartialSettings {
    PartialSettings(
      if later.baseUrl.Some? then later.baseUrl else earlier.baseUrl,
      if later.apiKey.Some? then later.apiKey else earlier.apiKey,
      if later.modelId.Some? then later.modelId else earlier.modelId)
  }

  /** An empty patch is the identity; a full record replaces everything. */
  lemma MergeExtremes(prev: ChatSettings, next: ChatSettings)
    ensures Merge(prev, NoChange) == prev
    ensures Merge(prev, AllFields(next)) == next
  {
  }

  /** Two updates in a row are one update by the second patch laid over the first; repeating a patch changes nothing more. */
  lemma MergeCompose(s: ChatSettings, p: PartialSettings, q: PartialSettings)
    ensures Merge(Merge(s, p), q) == Merge(s, Override(p, q))
    ensures Merge(Merge(s, p), p) == Merge(s, p)
  {
  }

  /** Start-up settings: the saved ones if any, else the default. */
  function InitialSettings(saved: Option<ChatSettings>): (r: ChatSettings)
    ensures saved.Some? ==> r == saved.value
    ensures saved.None? ==> r == DefaultSettings
  {
    match saved
    case Some(s) => s
    case None => DefaultSettings
  }

  class SettingsStore {
    var settings: ChatSettings
    var isSettingsOpen: bool
    /** The value saved in the browser under the settings key. */
    var stored: Option<ChatSettings>

    /** The saved copy is the current settings. */
    ghost predicate Persisted()
      reads this
    {
      stored == Some(settings)
    }

    /** The provider's start-up: load, then the effect of the first render saves what was loaded. */
    constructor (saved: Option<ChatSettings>)
      ensures settings == InitialSettings(saved) && !isSettingsOpen
      ensures Persisted()
    {
      settings := InitialSettings(saved);
      isSettingsOpen := false;
      stored := Some(settings);
    }

    method UpdateSettings(patch: PartialSettings)
      modifies this
      ensures settings == Merge(old(settings), patch)
      ensures isSettingsOpen == old(isSettingsOpen)
      ensures Persisted()
    {
      settings := Merge(settings, patch);
      stored := Some(settings);
    }

    method ToggleSettings()
      modifies this
      ensures isSettingsOpen == !old(isSettingsOpen)
      ensures settings == old(settings) && stored == old(stored)
    {
      isSettingsOpen := !isSettingsOpen;
    }
  }

  /**
   * Settings survive a restart: after an update, a new store started from what
   * was saved has the same settings, and toggling the panel twice restores it.
   */
  method ReloadAfterUpdate(saved: Option<ChatSettings>, patch: PartialSettings)
    returns (before: ChatSettings, after: ChatSettings, panelOpen: bool)
    ensures before == Merge(InitialSettings(saved), patch)
    ensures after == before
    ensures !panelOpen
  {
    var store := new SettingsStore(saved);
    store.UpdateSettings(patch);
    store.ToggleSettings();
    store.ToggleSettings();
    before := store.settings;
    var reloaded := new SettingsStore(store.stored);
    after := reloaded.settings;
    panelOpen := store.isSettingsOpen;
  }
}
