# Growz registration bot — a Dafny model

The Growz Telegram bot registers farmers for events. A participant presses
the join button and then answers three questions in turn: their first and
last name, their own phone number (shared as a Telegram contact), and their
region, picked from a fixed list of fourteen. Each registration becomes one
row of a flat ledger file. The ledger refuses a second registration under
the same telegram id, and it refuses a second registration with the same
phone. Administrators, listed by the `ADMIN_IDS` setting, get a larger
keyboard.

The model has six modules:

- `Wrappers` (`wrappers.dfy`) holds the `Option` and `Result` types the others return.

- `Text` (`text.dfy`) holds the Python string built-ins the bot relies on:
  - `str.strip()` and the `\s` class, with Python's whitespace set.
  - `re.sub(r"\D+", "", s)`, `str(int)` and `int(str)`.
  - `str.split(",")` and `",".join`.
- `Config` (`config.dfy`) parses `ADMIN_IDS` into a set of ids.
- `Keyboards` (`keyboards.dfy`) holds:
  - The button labels, `REGIONS`, and every reply keyboard as rows of labels.
  - The region keyboard, built by the same filling loop as `kb_regions`.
- `Storage` (`storage.dfy`) holds the ledger:
  - A class `Ledger` whose `rows` field is the file's data rows in order, and whose `present` flag says whether the file exists.
  - The first-match scan, and the decision of `add_registration`, written as the pure function `Admit`.
- `Bot` (`bot.dfy`) holds:
  - Phone normalisation, the full-name rule, and the administrator keyboard choice.
  - The conversation handlers, as methods of a class `Conversation`. Its field `userData` is the per-user session map, and it owns the `Ledger` it registers into.
  - `RegisterThroughDialogue`, which runs the handlers one after another.

Modelling choices:
- The handler methods return a conversation state, a reply kind and a keyboard (`Markup`).
- A `ValueError` from `add_registration` escapes `handle_region`. The model returns `Raised(error)` with the session left as it was.
- The clock is the `now` parameter, already formatted as text.

## Model

| member | source | states |
|---|---|---|
| Storage.Ledger.EnsureStorage | storage.py:10-15 | afterwards the file exists; a missing file becomes header-only (no rows); an existing file is left unchanged, so a second call changes nothing |
| Storage.Ledger.ReadAll | storage.py:17-21 | returns every data row in file order, and the file exists afterwards |
| Storage.Scan | storage.py:25-28 | the loop returns the first row in file order whose stripped column equals the key, or nothing when no row matches |
| Storage.FirstIndexFrom | storage.py:25-28 | the index found is the first match at or after the start; no match means no row from the start onwards matches |
| Storage.Lookup | storage.py:23-36 | a row is found exactly when some row's stripped column equals the key; the row found is in the ledger, carries that key and is the first such row in file order |
| Storage.Ledger.FindByTelegramId | storage.py:23-28 | returns the first row whose stripped `telegram_id` equals `str(telegram_id)`; the ledger is not changed |
| Storage.Ledger.FindByPhone | storage.py:30-36 | returns the first row whose stripped phone equals the stripped query (no digit normalisation here); the ledger is not changed |
| Storage.Admit | storage.py:38-53 | the id error comes exactly when the id is taken; the phone error comes exactly when the id is free and the stripped phone is taken; otherwise the new row is `str(id)`, stripped name, phone and region, and the timestamp |
| Storage.Ledger.AddRegistration | storage.py:38-59 | a refusal writes nothing; an admission appends exactly the returned row at the end; the outcome is the one `Admit` decides on the old rows |
| Storage.Key | storage.py:26 | definition, no contract: the stripped `telegram_id` or `phone` column a lookup compares (storage.py:26, 34) |
| Storage.NewRecord | storage.py:42-48 | definition, no contract: the row written, with `str(id)`, stripped name, phone and region, and the timestamp; `Admit` states its fields |
| Storage.NewRecordKeys | storage.py:42-48 | a written row's keys are `str(id)` and the stripped phone, so later lookups find it by exactly those keys |
| Storage.AdmitKeepsKeysDistinct | storage.py:38-59 | appending an admitted row keeps telegram ids and phones pairwise distinct, and a lookup by the new id then finds the new row |
| Storage.SecondRegistrationRefused | storage.py:50-53 | after an admission, the same id again is refused with the id error; a fresh id with the same stripped phone is refused with the phone error |
| Text.Strip | storage.py:26 | definition of `str.strip()`: drop whitespace from both ends; its contract only bounds the length. `StripDecompose` and `StripSpec` characterise it: the result is the text minus a whitespace prefix and a whitespace suffix, and it neither starts nor ends with whitespace |
| Text.StripDecompose | storage.py:26 | the text is a whitespace-only prefix, then its strip, then a whitespace-only suffix |
| Text.IntToString | storage.py:26 | `str(i)` is non-empty, has no whitespace, and starts with `-` exactly when `i` is negative |
| Text.DigitsValueOfNatToString | storage.py:43 | reading back the decimal text of a number gives the number (`int(str(n)) == n`) |
| Text.IntToStringInjective | storage.py:26 | `str(a) == str(b)` exactly when `a == b`, so matching by printed id is matching by id |
| Text.StripSpec | storage.py:26 | the stripped text neither starts nor ends with whitespace, and it is empty exactly when the text is all whitespace |
| Text.StripIdempotent | storage.py:44-46 | stripping twice is stripping once |
| Bot.NormalizePhone | bot.py:61-63 | the normalised phone is all ASCII digits, and the final `.strip()` removes nothing |
| Bot.NormalizePhoneIdempotent | bot.py:61-63 | normalising a normalised phone changes nothing |
| Bot.NormalizePhoneByCharacter | bot.py:61-63 | normalisation keeps each digit and drops every other character, piece by piece and in order |
| Text.KeepDigits | bot.py:63 | the result of `re.sub(r"\D+", "", s)` is all ASCII digits and no longer than `s`; `NormalizePhoneByCharacter` characterises it |
| Bot.KeepDigitsOfGroups | bot.py:61-63 | five groups, each a non-digit followed by digits, normalise to their digits in order |
| Bot.NormalizePhoneExample | bot.py:61-63 | `"+998 93-123-45-67"` normalises to `"998931234567"` |
| Bot.Words | bot.py:70 | every token of `[p for p in re.split(r"\s+", t) if p]` is non-empty and has no whitespace |
| Bot.TwoWordsIffSpace | bot.py:70 | a stripped, non-empty text splits into two or more tokens exactly when it contains whitespace |
| Bot.IsValidFullName | bot.py:66-71 | definition, no contract: non-empty, at least two tokens and at least five characters after stripping; `ValidFullNameSpec` characterises it |
| Bot.ValidFullNameSpec | bot.py:66-71 | a name is valid exactly when the text is non-empty and its stripped form has at least five characters and contains whitespace |
| Bot.TwoWordNameValid | bot.py:66-71 | `"Aliyev Sardor"`, the example the bot shows, is valid |
| Bot.OneWordNameInvalid | bot.py:66-71 | any text whose stripped form has no whitespace (a single word, or nothing) is invalid |
| Bot.ShortNameInvalid | bot.py:66-71 | `" A B "` has two tokens but is invalid, because its stripped form is shorter than five characters |
| Bot.IsAdmin | bot.py:53-54 | definition, no contract: the user id is in `ADMIN_IDS`; `AdminsOfListedIds` characterises it for a listed setting |
| Bot.KbAfterRegisteredFor | bot.py:53-58 | the keyboard is the participant rows, followed by the list and export rows exactly when the user is an administrator (four rows exactly for administrators) |
| Bot.AdminsOfListedIds | bot.py:53-58 | with `ADMIN_IDS` written as a comma list of ids, a user is an administrator, and gets the admin keyboard, exactly when their id is in the list |
| Bot.Get | bot.py:211-212 | definition, no contract: `user_data.get(key, "")` |
| Bot.IsForeignContact | bot.py:156 | definition, no contract: the contact has a non-zero (truthy) owner id different from the sender's |
| Bot.SessionRegistrationAdmitted | bot.py:199-220 | a session name and phone digits that are valid and free lead `add_registration` to admit and store exactly that name and phone |
| Bot.Conversation.Join | bot.py:101-121 | a sender whose id is in the ledger is told so, gets the keyboard for registered users, and the conversation ends; anyone else is asked for a name with the keyboard removed; the ledger file exists afterwards and its rows are not written |
| Bot.Conversation.HandleName | bot.py:124-141 | a valid stripped name is stored under `full_name` and the contact button is offered; an invalid one keeps state, session and keyboard |
| Bot.Conversation.HandlePhone | bot.py:144-196 | covers every case: no contact, someone else's contact, and no digits each ask again; a phone already in the ledger ends the conversation, with "already registered" exactly when the matching row's id is the sender's; otherwise the digits are stored and the region keyboard is sent; the ledger rows are never written, and the file is created only when a lookup happens |
| Bot.Conversation.HandleRegion | bot.py:199-227 | an off-list region changes nothing and re-sends the region keyboard; a listed region gives `add_registration`'s outcome on the stripped session values; success clears the session and ends the conversation, a refusal escapes with the session kept; the file is created only for a listed region |
| Bot.Conversation.Cancel | bot.py:230-236 | the session is cleared, the welcome keyboard is shown and the conversation ends |
| Bot.RegisterThroughDialogue | bot.py:101-227 | join, a valid name, one's own contact with fresh digits, then a listed region: the first three handlers move to NAME, PHONE and REGION in turn, and the dialogue appends exactly one row (the stripped name, the digits, the region); ids and phones stay distinct; pressing join again is answered "already registered" |
| Keyboards.KbWelcome | keyboards.py:14-18 | the welcome keyboard is a single row holding the join button and nothing else |
| Keyboards.KbAfterRegistered | keyboards.py:20-27 | "my info" then "help", one button per row |
| Keyboards.KbAfterRegisteredAdmin | keyboards.py:30-39 | the administrator keyboard is the participant keyboard followed by the list row and the export row |
| Keyboards.KbContactShare | keyboards.py:43-48 | the contact keyboard is a single row holding the share-my-phone button alone |
| Keyboards.Pairs | keyboards.py:67-78 | definition, no contract: the items two per row, the last row holding the odd one out; `PairsShape` characterises it |
| Keyboards.PairsShape | keyboards.py:67-78 | pairing n items gives ceil(n/2) rows of one or two labels, all but the last full; reading the rows in order gives back the items |
| Keyboards.PairRows | keyboards.py:68-76 | the filling loop (append, close the row at two, keep a trailing odd row) produces exactly the pairing of its items |
| Keyboards.KbRegions | keyboards.py:67-78 | the region keyboard is the pairing of `REGIONS` |
| Keyboards.EvenPairsFull | keyboards.py:67-78 | with an even number of items every row holds two labels |
| Keyboards.RegionRows | keyboards.py:50-65 | the fourteen regions give seven rows of two, in list order |
| Keyboards.RegionsDistinct | keyboards.py:50-65 | no region is listed twice, so each region button names one region |
| Config.TokenIds | config.py:10 | definition, no contract: the set comprehension of the ids of the tokens whose stripped text is all digits. `ParseAdminIdsOfSplit`, `TokenIdsPointwise` and `TokenIdsOfDecimals` characterise it |
| Config.ParseAdminIdsOfSplit | config.py:8-12 | the outer `.strip()` and the empty-setting test never change the result: the administrators are exactly the ids of the digit-only tokens of the raw setting split at every comma |
| Config.TokenIdsPointwise | config.py:10 | tokens with the same stripped text give the same ids |
| Config.ParseAdminIds | config.py:8-12 | an all-whitespace setting gives no administrators, and every parsed id is non-negative |
| Config.ParseAdminIdsOfList | config.py:8-12 | writing ids as `1,2,3` and parsing gives back exactly the set of those ids |
| Config.AllSpaceSplit | config.py:8-12 | a setting of whitespace only yields no administrators even without the `if _admins_raw:` test |
| Config.PaddedSplit | config.py:8-10 | whitespace around the setting changes only the first and last tokens, never the ids |
| Config.TokenIdsOfDecimals | config.py:10 | for tokens that are the decimal spellings of ids, the comprehension gives exactly the set of those ids |
| Config.SpacedDuplicateIds | config.py:8-12 | `" 1, 1 ,2"` gives {1, 2}: spaces around tokens are ignored and duplicates collapse |
| Config.NonDigitTokensIgnored | config.py:10 | tokens with a sign or a letter (`-5`, `abc`) add no id |
| Text.SplitOn | config.py:10 | `str.split(",")` gives at least one piece, and no piece contains the separator |
| Text.DigitsValue | config.py:10 | definition, no contract: `int(s)` for a string of ASCII digits, read left to right; `DigitsValueOfNatToString` is its round trip |
| Text.StripPadded | config.py:10 | extra whitespace on either side of a token does not change its strip |
| Text.JoinSplitOn | config.py:10 | joining the pieces of a split gives back the original text |
| Text.SplitOnJoin | config.py:10 | splitting a join of comma-free pieces gives back the pieces |

## Left out

- `migrate_old_csv_if_needed` is called by `start`, `join`, `my_info`, `export_csv`, `admin_list` and `unknown_message` (bot.py:85, 103, 241, 285, 305, 334), but `storage.py` defines no such function. As written, `storage.migrate_old_csv_if_needed()` at bot.py:103 would raise `AttributeError` before `join` reaches its lookup. The model treats the call as absent, and `Join` goes straight to the lookup.
- Rows are given whole, with every field present, so the CSV format itself is not modelled:
  - quoting and encoding;
  - the header row;
  - rows with missing columns, which `csv.DictReader` fills with `None`.
- The file system is reduced to `present` and `rows`. `os.makedirs` of the data directory and I/O errors are not modelled.
- `datetime.now().strftime(...)` is the `now` parameter.
- `asyncio.Lock` around `add_registration` is not modelled. Each ledger method runs as one atomic step, and two conversations running at once are not modelled.
- Handlers are modelled one message at a time. The `ConversationHandler` wiring, its filters and `allow_reentry` (bot.py:352-388) are not modelled.
- Handler replies become reply kinds, and keyboards become rows of labels. These are left out:
  - the message texts and Markdown parse mode;
  - the keyboard flags `resize_keyboard`, `one_time_keyboard` and `request_contact`.
- `kb_remove` is the markup value `RemoveKeyboard`.
- These handlers are not modelled: `start`, `send_welcome`, `my_info`, `help_msg`, `admin_list`, `export_csv`, `admin_export_btn`, `unknown_message` and `build_application`. None of them writes a row. `start`, `my_info`, `export_csv`, `admin_list` and `unknown_message` call `ensure_storage` (bot.py:84, 240, 284, 304, 333), which creates the header-only file if it is missing (what `Ledger.EnsureStorage` models). The others only format replies or build the application.
- `load_dotenv`, `os.getenv` and `BOT_TOKEN` are not modelled. `ParseAdminIds` takes the raw `ADMIN_IDS` text.
- Text.KeepDigits, Config.TokenIds: digits are ASCII only. Python's `\D` and `str.isdigit()` also accept other Unicode digits, and for some of them `int()` raises. The model treats every non-ASCII character as a non-digit.
- `keyboards.py` contains unresolved merge-conflict markers. The model follows the side that defines the admin buttons and `kb_after_registered_admin`, which `bot.py` imports.
- find_by_phone: the code compares stripped text and does not normalise digits. The model follows the code, so an empty query finds a row whose phone is empty. `handle_phone` only queries non-empty digit strings.
- A contact whose `user_id` is `0` is treated as having no owner, because `0` is falsy in the check of bot.py:156.
