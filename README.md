# A verified model of the Telegram chat bot's core

The bot (`bot/bot.py`) answers Telegram messages through a chat-completion
API. It keeps several conversations ("chats") per user. It enforces a daily
token quota per user, and it lets only the users on an allowlist in. This
project models the parts of it that decide something, and proves what they
promise:

- **Text** (`text.dfy`): the Python string operations the bot relies on.
  These are `str.isspace`, `strip`, `split(sep)`, `split()`, `join`,
  `isdigit`, `isdecimal`, `int` and `str`.
- **Format** (`format.dfy`): `format_answer`. It turns the model's Markdown
  headers `# … ######` into bold lines and leaves fenced code blocks alone.
  It is written as a loop over the lines, like the source. The loop is
  proved against `Formatted`, a line-by-line specification. The header
  regular expression `^(#{1,6})\s+(.+)$` is modelled with its greedy
  matching. An independent description of what the pattern accepts
  (`Decomposes`) is proved equivalent to it. `Decomposes` lets `(.+)` take a
  line break, which Python's `.` does not; the lines come from
  `splitlines`, so none holds one.
- **Media** (`media.dfy`): `guess_mediatype`.
- **Access** (`access.dfy`): the allowlist parsed from `ALLOWED_TG_IDS`, and
  `access`.
- **UseCommand** (`use_command.dfy`): the argument check of `/use <n>`.
- **Store** (`store.dfy`): the SQLite tables `sessions`, `messages`,
  `active_chat` and `quotas`.
  - They are the fields of the class `ChatStore`: two maps keyed as the
    tables' primary keys, a sequence in autoincrement order, and a
    per-user map.
  - Its methods are `set_active`, `new_chat`, `ensure_active_chat`,
    `add_msg`, `add_tokens` and the `/use` handler, plus the start of the
    text-message handler. That handler stores the message, estimates the
    tokens of the thread (`sum(len(content) // 4)`) and checks the quota.
  - `history`, `list_chats` and `can_spend` are functions of the state.
  - The invariant `Valid` says that chat ids are positive, that a
    user's active chat is one of their sessions, and that no quota counter
    is negative. Every method keeps it,
    except that `SetActive` keeps it only when the chosen session exists,
    as it does at both of its call sites.
  - Every method leaves the other users' rows unchanged.

The current time (`time.time()`) and the day key (`time.strftime("%Y%m%d")`)
are parameters of the methods. `DAILY_LIMIT` is a constant field of the
store, and `ALLOWED` is a parameter of the `/use` handler.

## Model

| member | source | states |
|---|---|---|
| Text.StripStartIsSuffix | bot/bot.py:24 | `lstrip` removes exactly a leading run of white space: the result is a suffix, everything cut is white space, and the result does not start with white space |
| Text.StripEndIsPrefix | bot/bot.py:24 | `rstrip` removes exactly a trailing run of white space: the result is a prefix, everything cut is white space, and the result does not end with white space |
| Text.StripIsSlice | bot/bot.py:24 | `strip` returns a slice of its input; both cut-off ends are white space, and the slice neither starts nor ends with white space |
| Text.StripAllSpace | bot/bot.py:49 | `strip` of an all-white-space string is empty, so such an allowlist entry is dropped |
| Text.StripUnpadded | bot/bot.py:24 | a string that neither starts nor ends with white space is its own `strip` |
| Text.StripKeepsOut | bot/bot.py:49 | `strip` introduces no character, so a stripped allowlist piece holds no comma |
| Text.SplitOn | bot/bot.py:49 | `split(',')` returns at least one piece, and no piece holds the separator |
| Text.SplitJoin | bot/bot.py:41 | splitting `'\n'.join(parts)` on `'\n'` gives back the parts, when the list is non-empty and no part holds a line break |
| Text.JoinSplit | bot/bot.py:41 | joining the pieces of a split gives back the string |
| Text.WordsOfTwo | bot/bot.py:202 | `split()` of two non-blank words separated by one space is exactly those two words |
| Text.WordsAfterSpace | bot/bot.py:202 | a leading space does not change `split()` |
| Text.DecimalValueOfNatToString | bot/bot.py:206 | `int(str(n)) == n`: `str(n)` is made of decimal digits and reads back as `n` |
| Text.NatToStringIsCanonical | bot/bot.py:77 | `str(n)` is made of ASCII digits and has no leading zero unless it is `"0"` |
| Text.IntToStringInjective | bot/bot.py:77 | `str` is one-to-one on integers, so an allowlist entry names at most one user |
| Format.HashRunIsMaximal | bot/bot.py:21 | the `#{1,6}` part starts at the run of leading `#`s, which is maximal |
| Format.SpaceRunIsMaximal | bot/bot.py:21 | the `\s+` part runs over white space up to the first other character |
| Format.DecompositionIsBounded | bot/bot.py:21 | any way of matching the pattern takes all the leading `#`s and at most the greedy number of spaces |
| Format.GreedyDecomposes | bot/bot.py:32-35 | when a line is a header, the greedy match is a valid match, and group 2 is what follows it |
| Format.DecompositionIsFound | bot/bot.py:32 | a line that the pattern can match in some way is recognised as a header |
| Format.HeaderGroupMatchesPattern | bot/bot.py:21-33 | a line is a header exactly when it splits into 1 to 6 `#`s, at least one white-space character and at least one more character; group 2 is the greedy choice |
| Format.HeaderTitle | bot/bot.py:35 | the stripped group 2 of a header is the line after its `#`s, stripped, wherever the regex backtracks |
| Format.TitleAfterSpace | bot/bot.py:35 | stripping after the leading spaces is the same as stripping the whole rest |
| Format.TitleOfSpaceOnly | bot/bot.py:35 | a header whose rest is only white space has an empty title |
| Format.InCodeStep | bot/bot.py:26-27 | the code-block flag flips exactly at fence lines |
| Format.FormattedStep | bot/bot.py:23-39 | formatting one more line appends that line's output and changes nothing before it |
| Format.IsFence | bot/bot.py:24-26 | a line is a fence when, stripped, it starts with three backquotes; its properties are in `Format.FormattedLine` and `Format.BoldIsPlain` |
| Format.HeaderGroup | bot/bot.py:21-33 | `header_re.match(line)` with its group 2: when it matches, the group is a non-empty tail of the line; `Format.HeaderGroupMatchesPattern` proves it equal to the pattern |
| Format.FormatLine | bot/bot.py:26-39 | the output for one line: it is the line itself, unless it is a header outside code; `Format.FormattedLine` states every case |
| Format.Formatted | bot/bot.py:23-39 | the output lines, one per input line, each formatted with the code-block state of the lines before it; `Format.FormatAnswer` is proved against it |
| Format.FormatAnswer | bot/bot.py:16-41 | the loop returns the line-by-line specification joined with line breaks; split again, it gives back exactly the formatted lines |
| Format.FormattedNoLineBreaks | bot/bot.py:36 | formatting introduces no line break, so the output has as many lines as the input |
| Format.FormattedLine | bot/bot.py:23-39 | each output line: a fence is copied and flips the flag; inside code a line is copied; outside code a header becomes `**` + its stripped title + `**`; any other line is copied |
| Format.BoldIsPlain | bot/bot.py:36 | a bold title line is neither a fence nor a header |
| Format.IndentedIsNotHeader | bot/bot.py:21 | a line that starts with white space is never a header, because the match is anchored |
| Format.SevenHashesIsNotHeader | bot/bot.py:21 | seven or more `#`s never make a header |
| Format.HashAndSpacesBecomesEmptyBold | bot/bot.py:21-36 | `#` followed by two or more white-space characters is a header whose title is empty, so the line becomes `****` |
| Format.FenceCountByFences | bot/bot.py:26 | the number of fences depends only on which lines are fences |
| Format.SameCodeBlocks | bot/bot.py:26-39 | the output has the same code blocks as the input |
| Format.NoHeaderOutsideCode | bot/bot.py:31-37 | the output has no header outside code blocks |
| Format.FormattedIdempotent | bot/bot.py:23-39 | line by line, formatting the formatted lines changes nothing |
| Media.Lower | bot/bot.py:406 | lowering keeps the length and lowers each character |
| Media.LowerIdempotent | bot/bot.py:406 | lowering twice is lowering once |
| Media.GuessMediatype | bot/bot.py:405-411 | the result is one of `pdf`, `docx`, `image`, `bin` |
| Media.GuessMediatypeIsLookup | bot/bot.py:405-411 | a MIME type containing `pdf` decides `pdf`; otherwise the lowered extension is looked up in the table of known extensions, and `bin` is returned for one not listed |
| Media.PdfMimeDecides | bot/bot.py:407 | any MIME type containing `pdf` gives `pdf`, whatever the extension |
| Media.GuessIgnoresCase | bot/bot.py:406 | the extension's case does not matter |
| Access.ParseAllowlist | bot/bot.py:49 | the allowlist holds exactly the non-blank stripped pieces of the comma-separated setting |
| Access.AllowlistEntriesAreClean | bot/bot.py:49 | every entry is non-empty, already stripped and free of commas |
| Access.MayUse | bot/bot.py:76-77 | `access`: everyone when the allowlist is empty, otherwise exactly the users whose id in decimal is listed; `Access.MayUseUnderSetting` reads it against the raw setting |
| Access.MayUseUnderSetting | bot/bot.py:76-77 | a setting with no non-blank entry lets everyone in; otherwise a user is let in exactly when some stripped entry is `str` of their id |
| Access.NonCanonicalEntryAdmitsNobody | bot/bot.py:77 | an entry with a leading `0` or `+` and more than one character matches no id |
| UseCommand.UseArgAsWritten | bot/bot.py:202-206 | the argument check as written: the usage hint unless there are two words and the second passes `isdigit`; then the chat number, or `ValueError` when `int` refuses it; `UseCommand.UseArgAsWrittenRaises` exhibits the error |
| UseCommand.UseArg | bot/bot.py:202-206 | the corrected check: a chat number exactly when there are two words and the second is decimal; `UseCommand.UseArgAgreesWithWritten` and `UseCommand.UseArgReadsNumber` state its properties |
| UseCommand.UseArgAsWrittenRaises | bot/bot.py:202-206 | the check as written lets `/use ²` through to `int()`, which raises |
| UseCommand.UseArgAgreesWithWritten | bot/bot.py:202-206 | the corrected check sends the usage hint where the written one does or raises, and reads the same number everywhere else |
| UseCommand.UseArgReadsNumber | bot/bot.py:202-206 | `/use` followed by `str(n)` selects chat `n` |
| Store.Maximum | bot/bot.py:90 | `MAX` over a non-empty set is a member that is at least every member |
| Store.NextChatId | bot/bot.py:90 | `COALESCE(MAX(chat_id),0)+1` is above every chat id of the user; it is 1 for a user with none, and otherwise the largest id plus one |
| Store.ChatRowsAreSessions | bot/bot.py:97-98 | the listing names each of the user's sessions once, with its update time |
| Store.NewestFirstOrder | bot/bot.py:98 | `ORDER BY updated_at DESC` returns the rows, each once, newest first |
| Store.Thread | bot/bot.py:101 | the selected messages are exactly those of the user and chat |
| Store.MessagesOf | bot/bot.py:101 | a user's messages are exactly those with their id |
| Store.Turns | bot/bot.py:105 | each row becomes its `{role, content}` in the same position |
| Store.HistoryOf | bot/bot.py:100-105 | history is an oldest-first prefix of the thread; a positive limit keeps `min(limit, count)` turns; no limit, 0 or a negative limit keeps all |
| Store.EstimateTokens | bot/bot.py:295 | four times the estimate is at most the total length and at least the total length minus 3 per message |
| Store.EstimateTokensAppend | bot/bot.py:295 | one more message adds its own quarter-length |
| Store.Estimate | bot/bot.py:295 | the summation loop computes the estimate, within its bounds |
| Store.UsedTokens | bot/bot.py:116-117 | the day's used tokens, 0 when there is no row |
| Store.Within | bot/bot.py:118 | spending `tokens` fits when used plus `tokens` is at most the limit; `Store.ChargeThenWithin` relates it to charging |
| Store.Charge | bot/bot.py:120-126 | the upsert raises the (user, day) counter by exactly the tokens, creating it from 0, and keeps every other counter |
| Store.ChargeThenWithin | bot/bot.py:114-126 | after charging `t`, spending `x` is allowed exactly when spending `t + x` was allowed before; other users and days are unaffected |
| Store.ChargeOnlyGrows | bot/bot.py:120-126 | a non-negative charge lowers no counter |
| Store.SessionsOfUpdate | bot/bot.py:92 | inserting a session of one user leaves other users' sessions unchanged |
| Store.QuotasOfUpdate | bot/bot.py:122-125 | updating one user's quota row leaves other users' quotas unchanged |
| Store.ChatStore.constructor | bot/bot.py:56-74 | the four tables start empty, and the invariant holds |
| Store.ChatStore.SetActive | bot/bot.py:79-81 | replaces the user's active chat and nothing else; keeps the invariant when that session exists |
| Store.ChatStore.NewChat | bot/bot.py:89-95 | adds a session whose id is new, positive and `NextChatId`, stamped `now`, and makes it active; other tables are unchanged |
| Store.ChatStore.EnsureActiveChat | bot/bot.py:83-87 | returns the existing active chat and changes nothing, or else creates one as `NewChat` does; afterwards the result is active and is a session |
| Store.ChatStore.ListChats | bot/bot.py:97-98 | the rows are exactly the user's sessions with their times, each once, newest first |
| Store.ChatStore.History | bot/bot.py:100-105 | `history` on the current messages; `Store.HistoryOf` states what it returns and `Store.ChatStore.AddMsg` how it grows |
| Store.ChatStore.AddMsg | bot/bot.py:107-112 | appends the message and stamps its session if there is one; the pair's history gains exactly that turn, and every other thread is unchanged |
| Store.ChatStore.AcceptText | bot/bot.py:289-297 | the active chat is kept, or else created with `NextChatId`; its session is stamped `now`; the text joins its history; the estimate is that of the whole thread, equal to the old estimate plus the text's; the answer is allowed exactly when the quota has room |
| Store.ChatStore.CanSpend | bot/bot.py:114-118 | `can_spend` on the current quotas; `Store.ChatStore.AddTokens` and `Store.ChatStore.AcceptText` state how it answers |
| Store.ChatStore.AddTokens | bot/bot.py:120-126 | for a non-negative count, as every caller passes: the quota table becomes `Charge` of the old one; no counter goes down; afterwards spending `x` is allowed exactly when `tokens + x` was |
| Store.ChatStore.Use | bot/bot.py:199-213 | nothing for a user not let in; the usage hint for a malformed argument; for a number above 2^63-1, which sqlite3 cannot bind, the lookup raises and nothing is sent; "no such chat" for a number that is not the user's session; otherwise that chat becomes active. Only the active chat may change |
| Store.TurnsAppend | bot/bot.py:105 | turning one more row appends one turn |

## Left out

- Telegram I/O is not modelled: replies, keyboards, callbacks, message editing and the polling loop.
- The chat-completion API call, its answer and its usage report are not modelled. `AddTokens` takes the charged amount as a parameter.
- Document and photo handling is not modelled: downloads, PDF, DOCX and OCR text extraction, and image captions. Only `guess_mediatype` is modelled.
- SQLite itself is replaced by maps and a sequence. Connections, commits, transactions and concurrent handlers are out of scope, and each method is one atomic step.
- Reading the environment variables is not modelled, except the allowlist parsing. `int()` on `USER_DAILY_TOKENS` is replaced by the integer it yields.
- `text.splitlines()` is not modelled. `Format.FormatAnswer` takes the list of lines, and the lemmas about splitting the output assume that no line holds a `'\n'`, which `splitlines` guarantees.
- Text.IsDecimal: only the ASCII digits and four other blocks of ten decimal digits are modelled, not every Unicode block `str.isdecimal` accepts. Text.IsDigit adds only the superscript, subscript and circled digits on top of that.
- Media.Lower: `str.lower()` is modelled for ASCII letters only. Outside ASCII, the only character that lowers to an ASCII letter is the Kelvin sign, which lowers to `k`, and no listed extension contains `k`.
- Store.ChatStore.ListChats: rows with equal update times can come in any order, and the model picks one of the allowed orders.
- Store.HistoryOf: only integer limits are modelled.
- Format.FormattedIdempotent is about the list of lines, not the string function. `format_answer` on strings is not idempotent when the text ends in an empty line: `"a\n\n"` gives `"a\n"`, and that gives `"a"`, because `splitlines` drops a final empty piece. The bot applies it twice (bot.py:319 and 326), so this difference is visible there.
- Store.ChatStore.Use models the corrected argument check. The check as written is modelled separately, under Findings.

## Findings

| source | as written | input that shows it | evidently intended | confidence | as-written member | corrected member |
|---|---|---|---|---|---|---|
| bot/bot.py:202-206 | the argument is accepted when `str.isdigit()` holds, then passed to `int()` | `/use ²`: `"²".isdigit()` is true, but `int("²")` raises `ValueError` and the handler fails without replying | accept only decimal digits (`str.isdecimal()`), and send the usage hint otherwise | high; not executed | UseCommand.UseArgAsWrittenRaises | UseCommand.UseArgReadsNumber |
