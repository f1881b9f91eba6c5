/** The persisted settings file `config.ini` and the `[pindown]` section the
    program keeps its settings in (`load_config` / `save_config`). */
module ConfigStore {
  import opened Wrappers

  /** The key/value pairs of one ini section. */
  type Config = map<string, string>

  /** A whole ini file: section name to its key/value pairs. A file that does
      not exist reads as the empty map. */
  type IniFile = map<string, Config>

  const Section := "pindown"
  const LastImportKey := "last_import"
  const LocalTzKey := "local_tz"
  const ApiTokenKey := "pinboard_api_token"

  /** `load_config`: the `[pindown]` section, or `None` when the file has no
      such section (a missing file included). The program also gets `None`
      when the file cannot be parsed or a value of the section fails `%`
      interpolation; the ini map here is the already parsed, interpolated
      file, so those two cases are not represented. */
  function Load(ini: IniFile): Option<Config> {
    if Section in ini then Some(ini[Section]) else None
  }

  /** `save_config`: a fresh parser holding the one `[pindown]` section is
      written over the file, so every key of `config` is persisted and every
      other section of the old file is gone. */
  function Save(config: Config): (ini: IniFile)
    ensures ini.Keys == {Section}
    ensures Load(ini) == Some(config)
  {
    map[Section := config]
  }

  /** The settings with the sync marker set to `stamp`; every other key keeps
      its value and no key is dropped. */
  function WithMarker(config: Config, stamp: string): (c: Config)
    ensures c.Keys == config.Keys + {LastImportKey}
    ensures c[LastImportKey] == stamp
    ensures forall k :: k in config && k != LastImportKey ==> k in c && c[k] == config[k]
  {
    config[LastImportKey := stamp]
  }
}
