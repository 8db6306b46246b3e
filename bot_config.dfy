/**
 * The bot_config table's logic: loading overlays the stored rows on the
 * compiled-in defaults, and the one-time import of the legacy config file.
 * The table itself is a field of Storage.Store.
 */
module BotConfig {
  import Json

  type Table = map<string, string>

  const AffiliateKey: string := "affiliate_link"
  const ContactKey: string := "contact_link"

  /** DEFAULT_CONFIG */
  const DefaultConfig: Table := map[
    AffiliateKey := "https://example.com",
    ContactKey := "https://t.me/mixeed22"
  ]

  /**
   * load_bot_config on the stored rows: every default key is present, and a
   * stored value wins over the default.
   */
  function Load(stored: Table): (c: Table)
    ensures c.Keys == DefaultConfig.Keys + stored.Keys
    ensures forall k :: k in stored ==> c[k] == stored[k]
    ensures forall k :: k in DefaultConfig && k !in stored ==> c[k] == DefaultConfig[k]
  {
    if stored == map[] then DefaultConfig else DefaultConfig + stored
  }

  /** Loading what was saved from a load changes nothing: a loaded map already covers the defaults. */
  lemma LoadIsIdempotent(stored: Table)
    ensures Load(Load(stored)) == Load(stored)
  {
  }

  /**
   * What cmd_setlink and cmd_setcontact leave in the table (load, set one
   * key, save every key): the loaded view changes at `key` only, and the
   * defaults become stored rows.
   */
  lemma {:induction false} LinkUpdate(stored: Table, key: string, link: string)
    ensures var after := stored + Load(stored)[key := link];
            && after == Load(stored)[key := link]
            && Load(after) == Load(stored)[key := link]
            && DefaultConfig.Keys <= after.Keys
            && after[key] == link
  {
    var loaded := Load(stored);
    var updated := loaded[key := link];
    var after := stored + updated;
    assert after.Keys == updated.Keys;
    assert forall k :: k in after ==> after[k] == updated[k];
    assert after == updated;
    assert key in updated && DefaultConfig.Keys <= updated.Keys;
    assert Load(updated) == DefaultConfig + updated;
  }

  // ---------------------------------------------------------------- legacy import

  /** The legacy config.json as the loader finds it. */
  datatype LegacySource =
    | Missing
    | Corrupt           // json.loads raised JSONDecodeError
    | NotAnObject       // decoded, but not a dict
    | Object(entries: map<Json.Value, Json.Value>)

  /** DEFAULT_CONFIG.copy(), with its values as decoded strings */
  function DefaultValues(): (m: map<string, Json.Value>)
    ensures m.Keys == DefaultConfig.Keys
  {
    map k | k in DefaultConfig :: Json.Str(DefaultConfig[k])
  }

  /** The string keys of a decoded object (isinstance(k, str)). */
  function StringKeys(entries: map<Json.Value, Json.Value>): set<string>
  {
    set k | k in entries && k.Str? :: k.s
  }

  /**
   * _load_legacy_config: the defaults, overlaid with the entries whose key is
   * a string when the file decodes to an object.
   */
  function LegacyConfig(src: LegacySource): (c: map<string, Json.Value>)
    ensures DefaultConfig.Keys <= c.Keys
    ensures !src.Object? ==> c == DefaultValues()
    ensures src.Object? ==> c.Keys == DefaultConfig.Keys + StringKeys(src.entries)
    ensures src.Object? ==> forall k :: k in c ==>
              c[k] == if Json.Str(k) in src.entries then src.entries[Json.Str(k)]
                      else Json.Str(DefaultConfig[k])
  {
    match src
    case Object(entries) =>
      var kept := map k | k in entries && k.Str? :: k.s := entries[k];
      assert kept.Keys == StringKeys(entries);
      assert forall k :: k in kept ==> Json.Str(k) in entries && kept[k] == entries[Json.Str(k)];
      DefaultValues() + kept
    case _ => DefaultValues()
  }

  /**
   * The rows the import inserts: (key, str(value)) for every legacy entry.
   * Without a usable object these are DEFAULT_CONFIG itself. With one, a key
   * the file sets holds str() of the file's value (a string verbatim), and a
   * default key the file leaves alone holds the default URL verbatim.
   */
  function LegacyRows(src: LegacySource): (rows: Table)
    ensures !src.Object? ==> rows == DefaultConfig
    ensures src.Object? ==> rows.Keys == DefaultConfig.Keys + StringKeys(src.entries)
    ensures src.Object? ==> forall k :: k in rows && Json.Str(k) in src.entries ==>
              rows[k] == Json.ToStr(src.entries[Json.Str(k)])
    ensures src.Object? ==> forall k :: k in rows && Json.Str(k) in src.entries && src.entries[Json.Str(k)].Str? ==>
              rows[k] == src.entries[Json.Str(k)].s
    ensures src.Object? ==> forall k :: k in DefaultConfig && Json.Str(k) !in src.entries ==>
              rows[k] == DefaultConfig[k]
  {
    var c := LegacyConfig(src);
    map k | k in c :: Json.ToStr(c[k])
  }

  /** INSERT ... ON CONFLICT DO NOTHING of every row: existing keys keep their value. */
  function InsertIgnoring(table: Table, rows: Table): (r: Table)
    ensures r.Keys == table.Keys + rows.Keys
    ensures forall k :: k in table ==> r[k] == table[k]
    ensures forall k :: k in rows && k !in table ==> r[k] == rows[k]
  {
    rows + table
  }

  /**
   * The config half of ensure_database: import only into an empty table.
   * Stored rows are never changed, and afterwards the table is never empty.
   */
  function Bootstrap(table: Table, src: LegacySource): (r: Table)
    ensures forall k :: k in table ==> k in r && r[k] == table[k]
    ensures r != table ==> table == map[]
    ensures r != map[]
  {
    if table == map[] then
      assert AffiliateKey in LegacyRows(src);
      InsertIgnoring(table, LegacyRows(src))
    else table
  }

  /** A non-empty table is never touched; an empty one receives the legacy rows and so every default key. */
  lemma BootstrapGate(table: Table, src: LegacySource)
    ensures table != map[] ==> Bootstrap(table, src) == table
    ensures table == map[] ==> Bootstrap(table, src) == LegacyRows(src)
                               && DefaultConfig.Keys <= Bootstrap(table, src).Keys
  {
    if table == map[] {
      var rows := LegacyRows(src);
      assert InsertIgnoring(table, rows) == rows;
      assert DefaultConfig.Keys <= LegacyConfig(src).Keys;
    }
  }

  /** Starting again leaves the table as the first start left it, whatever the legacy file holds then. */
  lemma BootstrapIdempotent(table: Table, src: LegacySource, later: LegacySource)
    ensures Bootstrap(Bootstrap(table, src), later) == Bootstrap(table, src)
  {
    if table == map[] {
      assert AffiliateKey in Bootstrap(table, src);
    }
  }

  /** Without a legacy file the import stores exactly DEFAULT_CONFIG. */
  lemma MissingFileImportsDefaults(src: LegacySource)
    requires !src.Object?
    ensures Bootstrap(map[], src) == DefaultConfig
  {
    assert LegacyRows(src).Keys == DefaultConfig.Keys;
  }
}
