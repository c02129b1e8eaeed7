/** The values stored in the extension's settings objects (`effikit_settings` and the
    per-feature configurations): booleans, numbers and strings under string keys. */
module Settings {
  datatype SettingValue = BoolValue(b: bool) | NumberValue(n: int) | TextValue(s: string)

  type SettingsObject = map<string, SettingValue>
}
