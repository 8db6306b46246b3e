/**
 * The two PostgreSQL tables the bot keeps, as the fields of one object, and
 * one method per database function. Each method's new state is given by the
 * table functions of Subscribers and BotConfig, whose properties are proved
 * there.
 */
module Storage {
  import opened Wrappers
  import Json
  import Translations
  import Subscribers
  import BotConfig

  /**
   * _load_legacy_subscribers: the loop that keeps the entries int() accepts,
   * converted and in file order.
   */
  method LoadLegacySubscribers(src: Subscribers.IdSource) returns (ids: seq<int>)
    ensures ids == Subscribers.LegacyIds(src)
  {
    ids := [];
    if src.Entries? {
      var items := src.items;
      var i := 0;
      while i < |items|
        invariant 0 <= i <= |items|
        invariant ids == Subscribers.Convertible(items[..i])
      {
        assert items[..i + 1][..i] == items[..i];
        var converted := Json.ToInt(items[i]);
        if converted.Some? {
          ids := ids + [converted.value];
        }
        i := i + 1;
      }
      assert items[..i] == items;
    }
  }

  class Store {
    /** subscribers (user_id BIGINT PRIMARY KEY, lng TEXT NOT NULL DEFAULT 'en') */
    var subscribers: Subscribers.Table
    /** bot_config (key TEXT PRIMARY KEY, value TEXT NOT NULL) */
    var config: BotConfig.Table

    constructor (subscribers: Subscribers.Table, config: BotConfig.Table)
      ensures this.subscribers == subscribers && this.config == config
    {
      this.subscribers := subscribers;
      this.config := config;
    }

    /** load_subscribers: every stored user id. */
    method LoadSubscribers() returns (ids: set<int>)
      ensures ids == subscribers.Keys
    {
      ids := subscribers.Keys;
    }

    /** get_user_language: a read of the table, as Subscribers.Language specifies it. */
    method GetUserLanguage(userId: int) returns (lng: string)
      ensures lng == Subscribers.Language(subscribers, userId)
    {
      lng := Subscribers.Language(subscribers, userId);
    }

    /** get_or_create_user_language */
    method GetOrCreateUserLanguage(userId: int) returns (lng: string)
      modifies this
      ensures (lng, subscribers) == Subscribers.GetOrCreate(old(subscribers), userId)
      ensures config == old(config)
    {
      if userId in subscribers && subscribers[userId] != "" {
        return subscribers[userId];
      }
      if userId !in subscribers {
        subscribers := subscribers[userId := Translations.DefaultLanguage];
      }
      lng := Translations.DefaultLanguage;
    }

    /** set_user_language: INSERT ... ON CONFLICT (user_id) DO UPDATE SET lng. */
    method SetUserLanguage(userId: int, language: string)
      modifies this
      ensures subscribers == old(subscribers)[userId := language]
      ensures config == old(config)
    {
      subscribers := subscribers[userId := language];
    }

    /** load_bot_config: a read of the table, as BotConfig.Load specifies it. */
    method LoadBotConfig() returns (c: BotConfig.Table)
      ensures c == BotConfig.Load(config)
    {
      c := BotConfig.Load(config);
    }

    /**
     * save_bot_config: an upsert per key of `c`. Every key of `c` ends up with
     * its value from `c`; every other stored key keeps its value.
     */
    method SaveBotConfig(c: BotConfig.Table)
      modifies this
      ensures config.Keys == old(config).Keys + c.Keys
      ensures forall k :: k in c ==> config[k] == c[k]
      ensures forall k :: k in old(config) && k !in c ==> config[k] == old(config)[k]
      ensures subscribers == old(subscribers)
    {
      var pending := c.Keys;
      ghost var done: set<string> := {};
      while pending != {}
        invariant pending + done == c.Keys && pending !! done
        invariant config.Keys == old(config).Keys + done
        invariant forall k :: k in done ==> config[k] == c[k]
        invariant forall k :: k in old(config) && k !in done ==> config[k] == old(config)[k]
        invariant subscribers == old(subscribers)
        decreases pending
      {
        var key :| key in pending;
        config := config[key := c[key]];
        pending := pending - {key};
        done := done + {key};
      }
    }

    /** executemany of INSERT INTO subscribers (user_id) ... ON CONFLICT DO NOTHING. */
    method InsertSubscribersIgnoring(ids: seq<int>)
      modifies this
      ensures subscribers == Subscribers.InsertIgnoring(old(subscribers), ids)
      ensures config == old(config)
    {
      var i := 0;
      while i < |ids|
        invariant 0 <= i <= |ids|
        invariant subscribers == Subscribers.InsertIgnoring(old(subscribers), ids[..i])
        invariant config == old(config)
      {
        assert ids[..i + 1][..i] == ids[..i];
        if ids[i] !in subscribers {
          subscribers := subscribers[ids[i] := Translations.DefaultLanguage];
        }
        i := i + 1;
      }
      assert ids[..i] == ids;
    }

    /** executemany of INSERT INTO bot_config (key, value) ... ON CONFLICT DO NOTHING. */
    method InsertConfigIgnoring(rows: BotConfig.Table)
      modifies this
      ensures config == BotConfig.InsertIgnoring(old(config), rows)
      ensures subscribers == old(subscribers)
    {
      var pending := rows.Keys;
      while pending != {}
        invariant pending <= rows.Keys
        invariant config.Keys == old(config).Keys + (rows.Keys - pending)
        invariant forall k :: k in old(config) ==> config[k] == old(config)[k]
        invariant forall k :: k in config && k !in old(config) ==> k in rows && config[k] == rows[k]
        invariant subscribers == old(subscribers)
        decreases pending
      {
        var key :| key in pending;
        if key !in config {
          config := config[key := rows[key]];
        }
        pending := pending - {key};
      }
    }

    /**
     * The import part of ensure_database (the CREATE/ALTER TABLE statements
     * are not modelled): legacy subscribers when there are any and the
     * subscribers table is empty; legacy config when bot_config is empty.
     */
    method EnsureDatabase(subscriberSource: Subscribers.IdSource, configSource: BotConfig.LegacySource)
      modifies this
      ensures subscribers == Subscribers.Bootstrap(old(subscribers), Subscribers.LegacyIds(subscriberSource))
      ensures config == BotConfig.Bootstrap(old(config), configSource)
    {
      var legacyIds := LoadLegacySubscribers(subscriberSource);
      if |legacyIds| > 0 {
        if |subscribers| == 0 {
          InsertSubscribersIgnoring(legacyIds);
        }
      }
      if |config| == 0 {
        var rows := BotConfig.LegacyRows(configSource);  // (key, str(value)) for each legacy entry
        InsertConfigIgnoring(rows);
      }
    }
  }
}
