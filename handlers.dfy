/**
 * The command handlers whose logic goes beyond dispatch: cmd_broadcast,
 * cmd_setlink, cmd_setcontact and on_set_language. The reply a handler sends
 * is given as a translation key plus the language it is looked up in; the
 * text itself is Translations.T of those.
 */
module Handlers {
  import opened Wrappers
  import Text
  import Translations
  import Subscribers
  import BotConfig
  import Broadcast
  import Storage

  /** A reply: t(translations, language, key), formatted by the caller. */
  datatype Reply = Reply(key: string, language: string)

  /** is_admin: the message has a sender and the sender's id is an admin id. */
  predicate IsAdmin(requester: Option<int>, admins: set<int>)
    ensures requester.None? ==> !IsAdmin(requester, admins)
    ensures admins == {} ==> !IsAdmin(requester, admins)
  {
    requester.Some? && requester.value in admins
  }

  /**
   * The language a handler answers in: the default unless the sender has a
   * row with a language, and then that language.
   */
  function ReplyLanguage(subscribers: Subscribers.Table, requester: Option<int>): (r: string)
    ensures r != ""
    ensures r != Translations.DefaultLanguage ==>
              requester.Some? && requester.value in subscribers && r == subscribers[requester.value]
  {
    if requester.Some? then Subscribers.Language(subscribers, requester.value)
    else Translations.DefaultLanguage
  }

  datatype BroadcastResult =
    | Refused(reply: Reply)
    | Completed(reply: Reply, sent: nat, failed: nat, attempts: seq<int>, notified: seq<int>)

  /**
   * cmd_broadcast. Nothing is sent unless the sender is an admin, the text is
   * non-empty and there are subscribers; otherwise every subscriber is tried
   * once and every other admin is told the counts.
   */
  method CmdBroadcast(store: Storage.Store, admins: set<int>, requester: Option<int>,
                      args: Option<string>, delivered: int -> bool)
    returns (result: BroadcastResult)
    ensures result.reply.language == ReplyLanguage(store.subscribers, requester)
    ensures !IsAdmin(requester, admins) ==> result.Refused? && result.reply.key == "admin_only"
    ensures IsAdmin(requester, admins) && args.GetOr("") == "" ==>
              result.Refused? && result.reply.key == "broadcast_usage"
    ensures IsAdmin(requester, admins) && args.GetOr("") != "" && store.subscribers == map[] ==>
              result.Refused? && result.reply.key == "broadcast_none"
    ensures result.Completed? <==>
              IsAdmin(requester, admins) && args.GetOr("") != "" && store.subscribers != map[]
    ensures result.Completed? ==>
              && result.reply.key == "broadcast_done"
              && Broadcast.Enumerates(result.attempts, store.subscribers.Keys)
              && result.sent == |set id | id in store.subscribers && delivered(id)|
              && result.failed == |set id | id in store.subscribers && !delivered(id)|
              && result.sent + result.failed == |store.subscribers|
              && Broadcast.Enumerates(result.notified, admins - {requester.value})
  {
    var language := Translations.DefaultLanguage;
    if requester.Some? {
      language := store.GetUserLanguage(requester.value);
    }
    if !(requester.Some? && requester.value in admins) {
      return Refused(Reply("admin_only", language));
    }
    var text := args.GetOr("");
    if text == "" {
      return Refused(Reply("broadcast_usage", language));
    }
    var subscribers := store.LoadSubscribers();
    if subscribers == {} {
      return Refused(Reply("broadcast_none", language));
    }
    var sent, failed, attempts := Broadcast.FanOut(subscribers, delivered);
    var notified := Broadcast.NotifyAdmins(admins, requester.value);
    result := Completed(Reply("broadcast_done", language), sent, failed, attempts, notified);
  }

  /**
   * The common body of cmd_setlink and cmd_setcontact: an admin with a
   * non-blank argument stores it under `key` by loading the config, setting
   * one key and saving every key.
   */
  method UpdateLink(store: Storage.Store, admins: set<int>, requester: Option<int>, args: Option<string>,
                    key: string, usageKey: string, doneKey: string)
    returns (reply: Reply)
    modifies store
    ensures reply.language == ReplyLanguage(old(store.subscribers), requester)
    ensures !IsAdmin(requester, admins) ==> reply.key == "admin_only" && store.config == old(store.config)
    ensures IsAdmin(requester, admins) && Text.Strip(args.GetOr("")) == "" ==>
              reply.key == usageKey && store.config == old(store.config)
    ensures IsAdmin(requester, admins) && Text.Strip(args.GetOr("")) != "" ==>
              reply.key == doneKey
              && store.config == BotConfig.Load(old(store.config))[key := Text.Strip(args.GetOr(""))]
    ensures store.subscribers == old(store.subscribers)
  {
    var language := Translations.DefaultLanguage;
    if requester.Some? {
      language := store.GetUserLanguage(requester.value);
    }
    if !(requester.Some? && requester.value in admins) {
      return Reply("admin_only", language);
    }
    var newLink := Text.Strip(args.GetOr(""));
    if newLink == "" {
      return Reply(usageKey, language);
    }
    var current := store.LoadBotConfig();
    current := current[key := newLink];
    store.SaveBotConfig(current);
    BotConfig.LinkUpdate(old(store.config), key, newLink);
    reply := Reply(doneKey, language);
  }

  /** cmd_setlink: /setlink <url> replaces affiliate_link. */
  method CmdSetLink(store: Storage.Store, admins: set<int>, requester: Option<int>, args: Option<string>)
    returns (reply: Reply)
    modifies store
    ensures reply.language == ReplyLanguage(old(store.subscribers), requester)
    ensures !IsAdmin(requester, admins) ==> reply.key == "admin_only" && store.config == old(store.config)
    ensures IsAdmin(requester, admins) && Text.Strip(args.GetOr("")) == "" ==>
              reply.key == "setlink_usage" && store.config == old(store.config)
    ensures IsAdmin(requester, admins) && Text.Strip(args.GetOr("")) != "" ==>
              reply.key == "setlink_done"
              && store.config == BotConfig.Load(old(store.config))[BotConfig.AffiliateKey := Text.Strip(args.GetOr(""))]
    ensures store.subscribers == old(store.subscribers)
  {
    reply := UpdateLink(store, admins, requester, args, BotConfig.AffiliateKey, "setlink_usage", "setlink_done");
  }

  /** cmd_setcontact: /setcontact <url> replaces contact_link. */
  method CmdSetContact(store: Storage.Store, admins: set<int>, requester: Option<int>, args: Option<string>)
    returns (reply: Reply)
    modifies store
    ensures reply.language == ReplyLanguage(old(store.subscribers), requester)
    ensures !IsAdmin(requester, admins) ==> reply.key == "admin_only" && store.config == old(store.config)
    ensures IsAdmin(requester, admins) && Text.Strip(args.GetOr("")) == "" ==>
              reply.key == "setcontact_usage" && store.config == old(store.config)
    ensures IsAdmin(requester, admins) && Text.Strip(args.GetOr("")) != "" ==>
              reply.key == "setcontact_done"
              && store.config == BotConfig.Load(old(store.config))[BotConfig.ContactKey := Text.Strip(args.GetOr(""))]
    ensures store.subscribers == old(store.subscribers)
  {
    reply := UpdateLink(store, admins, requester, args, BotConfig.ContactKey, "setcontact_usage", "setcontact_done");
  }

  // ---------------------------------------------------------------- language choice

  /**
   * The language code a language-button callback carries: the text after its
   * first ':', and "" when there is no data or no ':' in it.
   */
  function CallbackCode(data: Option<string>): (code: string)
    ensures data.None? || ':' !in data.value ==> code == ""
    ensures data.Some? && ':' in data.value ==>
              var n := |data.value| - |code| - 1;
              0 <= n && data.value == data.value[..n] + [':'] + code && ':' !in data.value[..n]
  {
    Text.AfterFirst(data.GetOr(""), ':')
  }

  datatype LanguageChoice =
    | Ignored                                   // no message or no sender: return at once
    | Acknowledged                              // callback.answer() only
    | Updated(reply: Reply, languageName: string)

  /**
   * on_set_language: the sender's language is set exactly when the code after
   * the first ':' is one of LANGUAGES, and then the confirmation is in that
   * language.
   */
  method OnSetLanguage(store: Storage.Store, hasMessage: bool, userId: Option<int>, data: Option<string>)
    returns (choice: LanguageChoice)
    modifies store
    ensures !(hasMessage && userId.Some?) ==> choice == Ignored && store.subscribers == old(store.subscribers)
    ensures hasMessage && userId.Some? && CallbackCode(data) !in Translations.Languages ==>
              choice == Acknowledged && store.subscribers == old(store.subscribers)
    ensures hasMessage && userId.Some? && CallbackCode(data) in Translations.Languages ==>
              && choice == Updated(Reply("lng_updated", CallbackCode(data)),
                                   Translations.Languages[CallbackCode(data)])
              && store.subscribers == old(store.subscribers)[userId.value := CallbackCode(data)]
    ensures store.config == old(store.config)
  {
    if !hasMessage || userId.None? {
      return Ignored;
    }
    var code := Text.AfterFirst(data.GetOr(""), ':');
    if code !in Translations.Languages {
      return Acknowledged;
    }
    store.SetUserLanguage(userId.value, code);
    choice := Updated(Reply("lng_updated", code), Translations.Languages[code]);
  }

  /** The keyboard's callback data `set_lang:<code>` decodes back to its code. */
  lemma LanguageButtonRoundTrip(code: string)
    requires code in Translations.Languages
    ensures CallbackCode(Some("set_lang:" + code)) == code
  {
    var data := "set_lang:" + code;
    assert ':' !in code;
    assert data[8] == ':' && ':' !in data[..8];
    assert ':' in data;
  }

  /** A code that was accepted is what get_user_language reads from then on. */
  lemma AcceptedCodeIsRead(t: Subscribers.Table, id: int, data: Option<string>)
    requires CallbackCode(data) in Translations.Languages
    ensures Subscribers.Language(t[id := CallbackCode(data)], id) == CallbackCode(data)
  {
    Subscribers.SetLanguageThenRead(t, id, CallbackCode(data));
  }
}
