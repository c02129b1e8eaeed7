/** The side panel's global configuration: one settings object per feature, kept in the
    synchronised storage area under a single key and mirrored in the hook's `config` state.
    Whether the storage API exists and the error the browser reports after a write are
    parameters. */
module GlobalConfig {
  import opened Wrappers
  import opened Settings

  type FeatureConfig = SettingsObject
  type Config = map<string, FeatureConfig>

  const UNAVAILABLE: string := "Chrome Storage API is not available."
  const SAVE_FAILED: string := "Failed to save config."
  const CLEAR_FAILED: string := "Failed to clear config."
  const LOAD_FAILED: string := "Failed to load config."

  /** `lastError.message || fallback`: an empty message counts as none. */
  function ErrorText(message: string, fallback: string): string {
    if message == [] then fallback else message
  }

  /** getFeatureConfig: the stored object, or an empty one. */
  function FeatureConfigOf(config: Config, featureName: string): (c: FeatureConfig)
    ensures featureName !in config ==> c == map[]
    ensures featureName in config ==> c == config[featureName]
  {
    if featureName in config then config[featureName] else map[]
  }

  class GlobalConfigState {
    var config: Config
    var isLoading: bool
    var error: Option<string>
    /** What the synchronised storage area holds under the configuration key. */
    var synced: Option<Config>

    constructor()
      ensures config == map[] && isLoading && error.None?
    {
      config := map[];
      isLoading := true;
      error := None;
      synced := None;
    }

    /** The initial load: the stored configuration or an empty one, or an error. */
    method Load(storageAvailable: bool, lastError: Option<string>)
      modifies this
      ensures !isLoading && synced == old(synced)
      ensures !storageAvailable ==> error == Some(UNAVAILABLE) && config == old(config)
      ensures storageAvailable && lastError.Some? ==>
        error == Some(ErrorText(lastError.value, LOAD_FAILED)) && config == old(config)
      ensures storageAvailable && lastError.None? ==> config == old(synced).GetOr(map[]) && error == old(error)
    {
      if !storageAvailable {
        error := Some(UNAVAILABLE);
        isLoading := false;
        return;
      }
      if lastError.Some? {
        error := Some(ErrorText(lastError.value, LOAD_FAILED));
      } else {
        config := synced.GetOr(map[]);
      }
      isLoading := false;
    }

    /** The storage-change listener: a change of the key in the synchronised area replaces
        the state with the new value, or an empty one when the key was removed. */
    method OnStorageChanged(areaName: string, keyChanged: bool, newValue: Option<Config>)
      modifies this
      ensures areaName == "sync" && keyChanged ==> config == newValue.GetOr(map[])
      ensures !(areaName == "sync" && keyChanged) ==> config == old(config)
      ensures error == old(error) && synced == old(synced) && isLoading == old(isLoading)
    {
      if areaName == "sync" && keyChanged {
        config := newValue.GetOr(map[]);
      }
    }

    /** setFeatureConfig: the feature's object is replaced wholesale; storage and state are
        written only when the storage exists and the write succeeds. */
    method SetFeatureConfig(featureName: string, featureConfig: FeatureConfig,
                            storageAvailable: bool, lastError: Option<string>)
      returns (r: Result<(), string>)
      modifies this
      ensures r.Success? <==> storageAvailable && lastError.None?
      ensures r.Failure? ==> config == old(config) && error == Some(r.error)
      ensures !storageAvailable ==> r == Failure(UNAVAILABLE) && synced == old(synced)
      ensures storageAvailable && lastError.Some? ==> r == Failure(ErrorText(lastError.value, SAVE_FAILED))
      ensures r.Success? ==> config == old(config)[featureName := featureConfig] && synced == Some(config)
      ensures r.Success? ==> error == old(error)
      ensures isLoading == old(isLoading)
    {
      if !storageAvailable {
        error := Some(UNAVAILABLE);
        return Failure(UNAVAILABLE);
      }
      var newGlobalConfig := config[featureName := featureConfig];
      if lastError.Some? {
        var err := ErrorText(lastError.value, SAVE_FAILED);
        error := Some(err);
        return Failure(err);
      }
      synced := Some(newGlobalConfig);
      config := newGlobalConfig;
      r := Success(());
    }

    /** clearFeatureConfig: the feature's key is deleted from a copy, which is written and
        then becomes the state. */
    method ClearFeatureConfig(featureName: string, storageAvailable: bool, lastError: Option<string>)
      returns (r: Result<(), string>)
      modifies this
      ensures r.Success? <==> storageAvailable && lastError.None?
      ensures r.Failure? ==> config == old(config) && error == Some(r.error)
      ensures !storageAvailable ==> r == Failure(UNAVAILABLE) && synced == old(synced)
      ensures storageAvailable && lastError.Some? ==> r == Failure(ErrorText(lastError.value, CLEAR_FAILED))
      ensures r.Success? ==> config == old(config) - {featureName} && synced == Some(config)
      ensures r.Success? ==> error == old(error)
      ensures isLoading == old(isLoading)
    {
      if !storageAvailable {
        error := Some(UNAVAILABLE);
        return Failure(UNAVAILABLE);
      }
      var newGlobalConfig := config - {featureName};
      if lastError.Some? {
        var err := ErrorText(lastError.value, CLEAR_FAILED);
        error := Some(err);
        return Failure(err);
      }
      synced := Some(newGlobalConfig);
      config := newGlobalConfig;
      r := Success(());
    }
  }

  /** After a set, reading the feature gives exactly the object set, not a merge with the
      old one, and every other feature reads as before. */
  lemma SetThenGet(config: Config, featureName: string, featureConfig: FeatureConfig, other: string)
    requires other != featureName
    ensures FeatureConfigOf(config[featureName := featureConfig], featureName) == featureConfig
    ensures FeatureConfigOf(config[featureName := featureConfig], other) == FeatureConfigOf(config, other)
  {
  }

  /** After a clear, the feature reads as an empty object and every other feature reads as
      before. */
  lemma ClearThenGet(config: Config, featureName: string, other: string)
    requires other != featureName
    ensures FeatureConfigOf(config - {featureName}, featureName) == map[]
    ensures FeatureConfigOf(config - {featureName}, other) == FeatureConfigOf(config, other)
  {
  }
}
