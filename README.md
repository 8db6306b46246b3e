# Prediction bot core, modelled in Dafny

The Telegram prediction bot keeps two tables: the subscribers (user id to
language code) and the bot configuration (key to value, holding the affiliate
and contact links). On start-up it creates them and, when they are empty,
imports the legacy `subscribers.json` and `config.json`. Its handlers look up
translated texts with a two-level fallback, broadcast a text to every
subscriber and report the counts to the other admins, let admins change the
two links, and let a user pick one of seven languages. Each photo's caption
is parsed from the image file's stem `difficulty_whole_fraction`.

The model is split into one module per concern:

- `Wrappers`: the `Option` and `Result` types.
- `Text`: the Python string operations the bot uses, restricted to ASCII. These are `str.strip`, `str.split` with one character, `str.partition`, `str.isdigit`, `int()`, `str()`, `str.replace` of one character and `str.title`. A one-character `Join` is added as the inverse of `split`, for the ADMIN_IDS round-trip lemmas; the bot itself never joins.
- `Json`: the values found in the legacy files once decoded, and Python's `int(v)` and `str(v)` on them.
- `Translations`: the language list and the lookup `t`.
- `Subscribers` and `BotConfig`: the two tables as maps, and what each database function and the legacy import do to them, as functions.
- `Storage`: a `Store` class holding both tables. It has one method per database function and the start-up bootstrap. Each method is specified by the functions above.
- `Broadcast`: the send loop and the admin-notification loop of `/broadcast`. Delivery of a message is an oracle `delivered: int -> bool`.
- `Handlers`: `/broadcast`, `/setlink`, `/setcontact` and the language-button callback.
- `Captions`: `build_prediction_caption`.
- `AppSettings`: `load_app_config`. The environment values are parameters.

## Model

| member | source | states |
|---|---|---|
| Text.Strip | main.py:306-307 | the stripped text neither starts nor ends with whitespace and is no longer than the input |
| Text.StripIsInfix | main.py:306-307 | strip keeps one infix of the input, starting after the leading whitespace |
| Text.StripRemovesOnlySpace | main.py:306-307 | everything strip removes on either side of that infix is whitespace |
| Text.StripBlank | main.py:309-313 | strip gives "" exactly for all-blank text, which is what `if not token` and `if admin_raw` test |
| Text.TrimStartShape | main.py:306 | the leading part str.strip removes is all whitespace, and what is left starts with a non-space character |
| Text.TrimEndShape | main.py:306 | the trailing part str.strip removes is all whitespace, and what is left ends with a non-space character |
| Text.StripKeepsTrimmed | main.py:315 | text with non-space ends is its own strip |
| Text.Split | main.py:314 | str.split always gives at least one field, and no field contains the separator |
| Text.SplitCount | main.py:554-555 | split gives exactly one more field than there are separators |
| Text.JoinSplit | main.py:314 | joining the fields of a split with the separator gives back the text |
| Text.SplitConcat | main.py:554 | splitting `a + sep + b` gives the fields of `a` followed by the fields of `b` |
| Text.SplitWithoutSeparator | main.py:554 | text without the separator splits into itself alone |
| Text.SplitJoin | main.py:314 | fields that contain no separator are recovered by splitting their join |
| Text.AfterFirst | main.py:735 | str.partition's third part: the text after the first separator, or "" when there is none |
| Text.DigitChar | main.py:563 | the inverse of a digit's value |
| Text.NatToDecimal | main.py:563 | str(n) is all digits and has no leading zero, except for "0" itself |
| Text.DecimalShape | main.py:317 | str(i) is an optional minus sign followed by digits |
| Text.IntToDecimal | main.py:400 | str(i) is non-empty, starts with a minus sign exactly when i is negative, and is all digits otherwise |
| Text.DecimalRoundTrip | main.py:563 | the value of str(n) is n |
| Text.DropLeadingZeros | main.py:563 | drops a prefix of the digits; leaves a non-empty result with no redundant leading zero |
| Text.LeadingZeroIsIgnored | main.py:563 | a leading "0" does not change a digit string's value |
| Text.NonZeroLead | main.py:563 | digits that do not start with "0" have a positive value |
| Text.IsDigits | main.py:559 | text that passes isdigit() is non-empty and has no blank at either end |
| Text.DigitsAreInts | main.py:559-563 | text that passes isdigit() is accepted by int(), with its decimal value, so `int(first_num)` cannot raise |
| Text.CanonicalIsPrinted | main.py:563 | a digit string without a redundant leading zero is the str() of its own value |
| Text.ReprintDropsLeadingZeros | main.py:563 | str(int(s)) on a digit string is s with its redundant leading zeros removed |
| Text.IntOfText | main.py:317 | int() succeeds only on text that is not blank |
| Text.WordIsNotInt | main.py:338-341 | int() raises on text that starts with a letter, whatever follows |
| Text.IntRoundTrip | main.py:317 | int(str(i)) == i for every integer |
| Text.Title | main.py:562 | str.title keeps the length |
| Text.TitleAfter | main.py:562 | a letter is upper-cased after a non-letter and lower-cased after a letter; other characters are unchanged |
| Text.ReplaceChar | main.py:562 | text without the old character is returned as it is; no old character survives a replacement by a different one; any character that changed was the old one and is now the new one |
| Json.ToInt | main.py:338-341 | int(v) gives the integer for an int, and fails for None, lists and dicts |
| Json.ToStr | main.py:400 | str() keeps a string verbatim, and the printed form of an integer reads back under int() as that integer |
| Json.NumericStringConverts | main.py:338-341 | a number stored as a JSON string converts to the same id as the number |
| Translations.T | main.py:512-515 | a non-empty text of the requested bucket wins; otherwise the default bucket's text; otherwise the key itself |
| Translations.LookupOrigin | main.py:512-515 | the looked-up text is either the key or a text stored for that key in some language |
| Translations.LookupExamples | main.py:512-515 | an unknown language falls back to English, and an unknown key comes back verbatim |
| Translations.EmptyTranslationFallsBack | main.py:515 | an empty translation in another language counts as missing and falls back to the default language |
| Translations.EmptyDefaultIsReturned | main.py:514-515 | an empty default-language text is returned as it is, asked for directly or reached by fallback; the key is not substituted |
| BotConfig.Load | main.py:485-495 | the loaded config holds every stored key with its stored value, and the defaults for the keys not stored |
| BotConfig.LoadIsIdempotent | main.py:485-495 | loading a loaded config changes nothing |
| BotConfig.LinkUpdate | main.py:691-694 | after load, set one key, save all: the table equals the loaded view with that key set; loading it again gives the same; the default keys have become stored rows |
| BotConfig.DefaultValues | main.py:22-25 | the defaults as JSON values have exactly the default keys |
| BotConfig.LegacyConfig | main.py:345-356 | a missing, corrupt or non-object file gives the defaults; otherwise the file's string keys override the defaults, which fill the rest |
| BotConfig.LegacyRows | main.py:397-401 | without a usable object the rows are DEFAULT_CONFIG itself; with one, the keys are the default keys and the file's string keys, a key the file sets holds str() of its value (a string verbatim), and a default key the file leaves alone holds the default URL |
| BotConfig.InsertIgnoring | main.py:397-401 | inserting with ON CONFLICT DO NOTHING adds the new keys and leaves existing rows as they are |
| BotConfig.Bootstrap | main.py:394-401 | stored rows are never changed, only an empty table is filled, and afterwards the table is never empty |
| BotConfig.BootstrapGate | main.py:394-401 | the config is imported only into an empty table, and then the table becomes exactly the legacy rows |
| BotConfig.BootstrapIdempotent | main.py:394-401 | a second bootstrap, with any legacy file, leaves the config table unchanged |
| BotConfig.MissingFileImportsDefaults | main.py:345-353 | with no usable config.json, an empty table receives exactly the two default links |
| Subscribers.Language | main.py:428-436 | the language is never empty; it is the stored code when that is non-empty, and anything other than the default comes from the table |
| Subscribers.GetOrCreate | main.py:439-455 | gives get_user_language's answer; adds the id with the default language if absent; leaves every existing row alone |
| Subscribers.GetOrCreateIdempotent | main.py:439-455 | a second get-or-create for the same id changes nothing |
| Subscribers.SetLanguageThenRead | main.py:458-470 | after setting a non-empty code it is read back, get-or-create no longer changes the table, and other users are unaffected |
| Subscribers.Convertible | main.py:336-341 | the legacy loop keeps at most one id per entry |
| Subscribers.ConvertibleMembers | main.py:336-341 | an id is kept exactly when it is int() of some entry; every entry int() accepts is kept |
| Subscribers.ConvertibleConcat | main.py:336-341 | the loop works entry by entry: entries that raise are skipped, and order is kept |
| Subscribers.LegacyIds | main.py:329-342 | a missing or corrupt subscribers.json gives no ids |
| Subscribers.InsertIgnoring | main.py:388-393 | inserting with ON CONFLICT DO NOTHING adds exactly the new ids, with the default language, and leaves existing rows alone |
| Subscribers.Bootstrap | main.py:385-393 | stored rows are never changed, and the table changes only when it was empty and the legacy file gave ids |
| Subscribers.BootstrapCollapsesDuplicates | main.py:384-393 | importing into an empty table gives one row per distinct id, each with the default language |
| Subscribers.BootstrapIdempotent | main.py:384-393 | a second bootstrap leaves the subscribers table unchanged |
| Subscribers.LegacyIdsExample | main.py:336-341 | duplicate ids are kept and a word entry is skipped |
| Subscribers.ImportExample | main.py:384-393 | ids [10, 20, 20] import as two rows with "en", and importing again changes nothing |
| Storage.LoadLegacySubscribers | main.py:329-342 | the `legacy_ids.append` loop yields exactly the ids the legacy function specifies |
| Storage.Store.LoadSubscribers | main.py:420-425 | returns the set of subscriber ids |
| Storage.Store.GetUserLanguage | main.py:428-436 | returns the table's language for the user; the tables are not changed |
| Storage.Store.GetOrCreateUserLanguage | main.py:439-455 | the returned language and the new subscribers table are those of the get-or-create function; the config is unchanged |
| Storage.Store.SetUserLanguage | main.py:458-470 | the upsert sets the user's row to the code and changes nothing else |
| Storage.Store.LoadBotConfig | main.py:485-495 | returns the loaded view of the config table |
| Storage.Store.SaveBotConfig | main.py:498-509 | every saved key now holds its new value, and other stored keys keep theirs |
| Storage.Store.InsertSubscribersIgnoring | main.py:388-393 | the executemany loop gives the table the insert-ignoring function specifies |
| Storage.Store.InsertConfigIgnoring | main.py:397-401 | the executemany loop gives the table the insert-ignoring function specifies |
| Storage.Store.EnsureDatabase | main.py:359-401 | each table becomes its bootstrap from the legacy file |
| Broadcast.CountDelivered | main.py:655-662 | the count of successful sends is at most the number of attempts |
| Broadcast.CountIsOrderFree | main.py:655-662 | whatever order a set is walked in, the sent count is the number of members delivered to |
| Broadcast.DeliveryPartition | main.py:655-662 | every subscriber is either reached or not, so the two counts add up to the number of subscribers |
| Broadcast.FanOut | main.py:655-662 | each subscriber is attempted exactly once; sent and failed are the numbers reached and not reached; they add up to the number of subscribers |
| Broadcast.NotifyAdmins | main.py:669-675 | every admin except the requester is notified exactly once, whatever happens to the other notifications |
| Handlers.IsAdmin | main.py:570-571 | a message without a sender is never from an admin, and with no admin ids nobody is one |
| Handlers.ReplyLanguage | main.py:637-640 | the reply language is never empty, and anything other than the default is the sender's stored language |
| Handlers.CmdBroadcast | main.py:636-675 | a non-admin, an empty text or no subscribers each get their refusal and nothing is sent; otherwise the fan-out runs and the result goes to every other admin; replies are in the sender's language |
| Handlers.UpdateLink | main.py:678-717 | only an admin with a non-blank argument changes the config, to the loaded view with the stripped link set |
| Handlers.CmdSetLink | main.py:678-696 | as UpdateLink, for affiliate_link and the setlink replies |
| Handlers.CmdSetContact | main.py:699-717 | as UpdateLink, for contact_link and the setcontact replies |
| Handlers.OnSetLanguage | main.py:731-745 | without a message or sender nothing happens; an unknown code only acknowledges; a known code is stored and confirmed in the new language |
| Handlers.CallbackCode | main.py:734-735 | the code is "" without data or without a ':' in it; otherwise the data is a ':'-free prefix, the first ':', then the code |
| Handlers.LanguageButtonRoundTrip | main.py:531-538 | the `set_lang:<code>` callback data of every button decodes back to its code |
| Handlers.AcceptedCodeIsRead | main.py:740 | an accepted code is what get_user_language returns afterwards |
| Captions.DifficultyLabel | main.py:562 | the label has the length of the raw field |
| Captions.ValueText | main.py:563 | the value is the whole part without redundant leading zeros, a dot, then the fraction verbatim |
| Captions.PredictionCaption | main.py:552-567 | the default text exactly when there are fewer than three fields or field 1 or 2 is not all digits; otherwise the format template, with the difficulty label of field 0 and the value `int(field 1)`, a dot, then field 2 verbatim |
| Captions.DifficultyIsTitledField | main.py:562 | the underscore replacement does nothing, so the label is the title-cased field with dashes as spaces |
| Captions.DifficultyHasNoSeparators | main.py:562 | the label contains neither '-' nor '_' |
| Captions.CaptionIgnoresExtraParts | main.py:554-558 | fields after the third do not change the caption |
| Captions.ThreeFields | main.py:554-557 | three underscore-free fields joined by underscores split back into exactly those three |
| Captions.DigitStem | main.py:552-567 | the stem `difficulty_whole_fraction` with digit fields gives the format template, the title-cased difficulty with dashes as spaces, and the whole part without its leading zeros, a dot, then the fraction verbatim |
| Captions.ComposedStem | main.py:552-567 | the stem `difficulty_str(n)_digits` reads back as its label, n, and the digits verbatim |
| Captions.ZeroPaddingIgnored | main.py:563 | a zero in front of the whole part does not change the caption: `hard_007_05` reads like `hard_7_05` |
| Captions.ShortStemIsPlain | main.py:555-556 | a stem with fewer than two underscores gives the default text |
| AppSettings.AdminParts | main.py:307-314 | no fields exactly when ADMIN_IDS strips to ""; otherwise comma-free fields whose comma join is the stripped text |
| AppSettings.FieldValue | main.py:315-317 | a field is skipped exactly when it strips to "", and otherwise contributes int() of it |
| AppSettings.ParseFields | main.py:312-317 | when the loop raises, the offending field is non-blank and int() rejects it |
| AppSettings.ParseFieldsSucceeds | main.py:312-317 | admin parsing succeeds exactly when every non-blank field is an integer |
| AppSettings.AllIdsParseByLast | main.py:314-317 | every field parses exactly when all but the last do and the last does too |
| AppSettings.CollectedAreListed | main.py:312-317 | every collected admin id is the value of some field |
| AppSettings.ListedAreCollected | main.py:312-317 | every non-blank field's value is collected |
| AppSettings.ParseFieldsMembers | main.py:312-317 | the admin set is exactly the set of the field values |
| AppSettings.ParseFieldsFailure | main.py:312-317 | on failure, the error names the first field int() rejects, with every field before it parsing |
| AppSettings.FailureSticks | main.py:312-317 | once a field is rejected, later fields do not matter, because the raise ends the loop |
| AppSettings.ParseAdminIds | main.py:312-317 | the `admin_ids.add` loop follows the parsing function: it succeeds iff every field parses, and then holds exactly the listed ids |
| AppSettings.LoadAppConfig | main.py:304-319 | a blank token is the missing-token error; otherwise the admin ids are parsed, and a rejected field is reported; on success the stripped token and the parsed set |
| AppSettings.Decimals | main.py:312-317 | one printed field per id |
| AppSettings.DecimalsAt | main.py:312-317 | field i is str() of id i |
| AppSettings.JoinedEnds | main.py:307 | a join of non-empty fields starts with the first field's first character and ends with the last field's last character |
| AppSettings.PrintedFieldShape | main.py:314-315 | a printed id is non-empty and has no comma and no blank at either end |
| AppSettings.PrintedFieldValue | main.py:315-317 | a printed id, stripped and passed to int(), reads back as the id |
| AppSettings.JoinedFieldsSplit | main.py:307-314 | non-empty fields without commas, with no blank at the outer ends, are what stripping and splitting their comma join gives back |
| AppSettings.PrintedFieldsSplit | main.py:307-314 | a comma join of printed ids splits back into those printed ids |
| AppSettings.AdminIdsRoundTrip | main.py:307-317 | ADMIN_IDS written as comma-joined decimals parses to exactly those ids, the empty list (ADMIN_IDS unset) included |

## Left out

- Database and file I/O are not modelled. This covers psycopg connections, `get_database_url`, `load_dotenv` and environment reads, `ensure_storage`'s directory and file creation, and the `CREATE TABLE` and `ALTER TABLE` statements. The tables are in-memory maps in `Storage.Store`. The environment values are parameters.
- Reading and decoding the JSON files is not modelled. The legacy loaders take the decoded value. A missing file and a `JSONDecodeError` are constructors of the source datatype.
- The top level of `subscribers.json` is modelled only as a list (`Subscribers.IdSource`). The loop `for value in data` also accepts other shapes, which the model cannot represent: a dict is walked by its keys, and a string by its characters, so a file holding `"123"` imports the ids 1, 2 and 3. A number, a boolean or null at the top level raises TypeError outside the `try`, which aborts `ensure_database` and so start-up.
- A JSON object's keys are modelled as any JSON value, not only strings. This is more general than `json.loads` produces and keeps the `isinstance(k, str)` filter visible.
- `load_translations` is not modelled, because it is a file read. The catalog is a parameter, and the translated texts of `DEFAULT_TRANSLATIONS` are not reproduced.
- aiogram is not modelled: `Bot`, `Dispatcher`, handler registration, `message.answer`, `callback.answer`, keyboards and their layout. A reply is a translation key plus a language, and delivery of a broadcast message is an oracle.
- `cmd_start`, `cmd_predict`, `cmd_language` and `on_next_prediction` are not modelled beyond the calls they make. Those are `t`, the language lookups, `load_bot_config` and `build_prediction_caption`.
- `build_links_keyboard`, `build_language_keyboard` and `get_random_image` are not modelled: they are UI, directory listing and random choice. Only the keyboard's `set_lang:<code>` data format appears, in `Handlers.LanguageButtonRoundTrip`.
- Concurrency and the order in which Python walks a set are not modelled. The loops pick elements in an arbitrary order, and their contracts say every element is taken exactly once.
- Handlers.CmdBroadcast: the outcome of each admin notification is not modelled, because the source swallows every failure. The contract lists the admins notified.
- Captions.PredictionCaption: `str.format` substitution is not modelled. The caption carries the template and the two field values. The input is the file stem; `Path.stem` is not modelled.
- Text: text is treated as ASCII only. Unicode whitespace, Unicode digits and Unicode case in `strip`, `isdigit`, `int()` and `title` are not modelled. In particular `isdigit` also accepts characters such as superscript digits that `int()` rejects, so `int(first_num)` in `build_prediction_caption` can raise on such a stem; `Text.DigitsAreInts` holds only for ASCII. Neither are `int()`'s underscore digit grouping and Python's arbitrary-width integers at the database's BIGINT bound.
- Json: floats carry their printed form and the integer `int()` truncates them to. Floating point, infinities and NaN are not modelled.

## Behaviour of the code worth noting

- `t` treats an empty text in the requested language as missing, because of the `or` in `bucket.get(key) or …`: it falls back to the default language's entry (`Translations.EmptyTranslationFallsBack`). That entry is returned even when it is empty, since `fallback.get(key, key)` is not checked again; the key comes back only when the default language has no entry for it (`Translations.EmptyDefaultIsReturned`).
- The code has no active/inactive subscriber state, no boolean parsing of config values, no statistics, and get_or_create_user_language does not report whether the row was new. The model has none of these either.
