# Cardano node release monitor — Dafny model

This project models the core of `CardanoNodeMonitor` in
`python/cnode_check.py`. The monitor polls the latest-release feed of the
cardano-node repository and remembers the last release tag it has seen, in
memory and in a small cache file. When the tag changes, it hands the release
back so that a Telegram message can be sent, and it builds that message.

The project has five modules:

- `Strings` (`strings.dfy`) covers the Python string built-ins the monitor relies on:
  - `str.split` on one character, and `str.join`;
  - `str.lstrip` of one character;
  - ASCII `str.lower`;
  - the substring test `word in text`.

  Each comes with the lemmas the other modules need, such as split/join round trips and what `lstrip` removes.
- `Release` (`release.dfy`) holds the feed record (tag, name, URL, notes, asset names) and the outcome of the feed request (the record, or the request error).
- `VersionParser` (`version_parser.dfy`) models `_parse_version` as pure functions.
  - `TryParseVersion` is the body of the `try`; `ParseVersion` adds the `((0, 0, 0), False)` fallback.
  - The accepted tags are characterised in both directions:
    - `ParseVersionSound`: a tag that parses is `v…v`, dot-separated numerals, then nothing or `-…`.
    - `ParseVersionComplete`: every such tag parses, to the numerals' values, with the pre-release flag set exactly when the `-` part is present.
  - `ParseShownVersion` is a print-then-parse round trip.
  - The examples `v1.2.3`, `v1.2.3-rc1`, `not-a-version` and `vv10.1` are proved.
- `MessageFormat` (`message_format.dfy`) models `format_telegram_message` as an imperative method with its two loops.
  - The method is proved equal to `Join(MessageLines(release), "\n")`, where `MessageLines` states the message line by line.
  - The asset loop sits in the helper method `AppendDownloads`, and the keyword loop in `AppendKeywordWarnings`.
  - Lemmas about `MessageLines` give its layout:
    - the header lines come first;
    - the pre-release note appears exactly for pre-release tags;
    - then one bullet per asset, in feed order;
    - the notes are truncated to 497 characters plus `...` (500 in all) when longer than 500;
    - the keyword warnings come last. They are found on the whole lower-cased notes, follow the keyword list order, and appear only when a keyword occurs.
- `Monitor` (`monitor.dfy`) models `check_new_release` as the class `CardanoNodeMonitor`.
  - Its fields are `lastRelease`, `persisted` (what the cache file holds) and a ghost log `sent` of the Telegram warnings.
  - The answer of the feed request is a parameter of `CheckNewRelease`.
  - The method is tied to the pure function `Check`, which states the three branches and the error path.
  - `Run` chains checks over successive polls. Lemmas about it cover:
    - the first run only seeds the tag;
    - the last known tag is that of the last successful request;
    - every failed request sends exactly one warning;
    - consecutive reports never share a tag;
    - after a report, the last known tag (and so the cache) is the most recently reported tag.

Two behaviours of the code are worth stating outright:

- `lstrip('v')` removes every leading `v`, not only one (`VersionParser.ParseVersionManyVs`).
- A fetched tag is compared only with the last known tag, so a feed that goes back to an earlier release reports it again (`Monitor.RollbackIsReportedAgain`).

## Model

| member | source | states |
|---|---|---|
| Strings.Split | python/cnode_check.py:76-77 | `split` on one character always yields at least one piece |
| Strings.JoinSplit | python/cnode_check.py:76-77 | joining the pieces of a split with the separator gives back the string |
| Strings.SplitJoin | python/cnode_check.py:76-77 | splitting a join of separator-free pieces gives back the pieces |
| Strings.SplitPiecesAvoidSep | python/cnode_check.py:76-77 | no piece of a split contains the separator |
| Strings.Join | python/cnode_check.py:151 | a join starts with its first piece; `Strings.JoinSplit` and `Strings.SplitJoin` state that it undoes `split` |
| Strings.LStrip | python/cnode_check.py:75 | `lstrip('v')` never lengthens the tag and leaves no leading `v`; `Strings.LStripRemovesRun` states that exactly the leading run is removed |
| Strings.LStripRemovesRun | python/cnode_check.py:75 | `lstrip('v')` removes a run of `v` and nothing else, and what remains does not start with `v` |
| Strings.LStripRepeat | python/cnode_check.py:75 | stripping any number of leading `v` from a string that does not start with `v` leaves that string |
| Strings.Lower | python/cnode_check.py:146 | lower-casing keeps the length and lower-cases each character |
| Strings.Contains | python/cnode_check.py:148 | `keyword in text` holds exactly when the keyword occurs at some position of the text |
| VersionParser.ParseInt | python/cnode_check.py:77 | `int(field)` succeeds exactly on numerals (non-empty ASCII digit strings); its value is the one `NumeralValue` defines, and `ParseIntPadded` states what that value is |
| VersionParser.LeadingZero | python/cnode_check.py:77 | a leading zero does not change the value of a numeral, as with `int("07") == 7` |
| VersionParser.ParseIntPadded | python/cnode_check.py:77 | the decimal form of any value, behind any number of leading zeros, is read by `int(field)` back as that value |
| VersionParser.ParseInts | python/cnode_check.py:77 | `tuple(map(int, …))` succeeds exactly when every field is a numeral; then it holds the value of each field, in order |
| VersionParser.VersionParts | python/cnode_check.py:75-76 | the split of the stripped tag on `-` has at least one piece |
| VersionParser.TryParseVersion | python/cnode_check.py:75-79 | when the `try` body succeeds the version tuple has at least one number; `VersionParser.ParseVersionSound` and `VersionParser.ParseVersionComplete` characterise exactly the tags on which it succeeds |
| VersionParser.ParseVersion | python/cnode_check.py:72-81 | the parse always has at least one number, the fallback `(0, 0, 0)` included |
| VersionParser.ParseVersionSound | python/cnode_check.py:75-79 | a tag that parses is a run of `v`, dot-separated numerals, then nothing or `-` and anything; the numbers are the numerals' values, and the pre-release flag says whether the `-` part is present |
| VersionParser.ParseVersionComplete | python/cnode_check.py:75-79 | every tag of that shape parses, to the numerals' values, with the pre-release flag set exactly when a `-` part follows |
| VersionParser.ParseNumerals | python/cnode_check.py:72-81 | completeness stated on the full parser: such a tag yields exactly the given numbers and flag, never the fallback |
| VersionParser.ParseVersionIsTry | python/cnode_check.py:79-81 | when the `try` body succeeds, its result is returned and not the fallback |
| VersionParser.ParseVersionRejectsNonDigit | python/cnode_check.py:76-81 | a character that is neither a digit nor `.` before the first `-` makes the parser return the fallback `((0, 0, 0), False)` |
| VersionParser.ParseShownVersion | python/cnode_check.py:72-81 | round trip: printing numbers as `v` + dotted decimals + optional `-` suffix and parsing gives back the numbers and the pre-release flag |
| VersionParser.ParseVersionRelease | python/cnode_check.py:72-81 | `v1.2.3` parses to `(1, 2, 3)`, not a pre-release |
| VersionParser.ParseVersionPreRelease | python/cnode_check.py:72-81 | `v1.2.3-rc1` parses to `(1, 2, 3)`, a pre-release |
| VersionParser.ParseVersionNotAVersion | python/cnode_check.py:72-81 | `not-a-version` falls back to `((0, 0, 0), False)` |
| VersionParser.ParseVersionManyVs | python/cnode_check.py:75 | every leading `v` is stripped: `vv10.1` parses to `(10, 1)` |
| VersionParser.ParseVersionEmptySegment | python/cnode_check.py:76-81 | the empty tag and `v-rc1` (empty version field) fall back to `((0, 0, 0), False)` |
| MessageFormat.TruncateNotes | python/cnode_check.py:139-141 | notes of at most 500 characters are kept whole; longer notes become their first 497 characters and `...`, exactly 500 characters |
| MessageFormat.AssetLines | python/cnode_check.py:135-136 | one bullet line per asset, the i-th naming the i-th asset |
| MessageFormat.AppendDownloads | python/cnode_check.py:133-136 | the loop appends the downloads heading and the asset bullets in feed order, and nothing when there are no assets |
| MessageFormat.KeywordWarningsStep | python/cnode_check.py:147-149 | scanning one more keyword appends its warning exactly when it occurs |
| MessageFormat.AppendKeywordWarnings | python/cnode_check.py:145-149 | the keyword loop appends exactly the warnings of the keywords found, in list order |
| MessageFormat.MessageLines | python/cnode_check.py:122-149 | the list `message` has at least five lines and opens with the header; `MessageFormat.MessageLayout` fixes every line in order |
| MessageFormat.FormatTelegramMessage | python/cnode_check.py:118-151 | the text is the message lines joined with newlines: header, version, name, optional pre-release note, URL, downloads, notes, keyword warnings |
| MessageFormat.MatchedKeywords | python/cnode_check.py:147-148 | the indices picked are increasing and are exactly those of the keywords occurring in the lower-cased notes |
| MessageFormat.KeywordWarningsInOrder | python/cnode_check.py:145-149 | the j-th warning line names the j-th keyword that occurs, so warnings follow the keyword list order, one per keyword found |
| MessageFormat.KeywordFoundWarns | python/cnode_check.py:147-149 | every keyword that occurs has its warning line |
| MessageFormat.KeywordAnywhereWarns | python/cnode_check.py:139-149 | a keyword anywhere in the notes, in any ASCII letter case, also past the truncation point, puts its warning in the message |
| MessageFormat.NoKeywordNoWarning | python/cnode_check.py:147-149 | when no keyword occurs there is no warning line |
| MessageFormat.ImportantKeywordWarnings | python/cnode_check.py:145-149 | the warnings are those for "breaking change", "upgrade required", "mandatory upgrade", in that order, each present exactly when it occurs |
| MessageFormat.HeadLinesShape | python/cnode_check.py:120-131 | header, version and name come first, the pre-release note is the fourth line exactly for pre-release tags, and the URL line closes the head |
| MessageFormat.DownloadLinesShape | python/cnode_check.py:133-136 | no downloads section without assets; otherwise the heading followed by one bullet per asset |
| MessageFormat.MessageLayout | python/cnode_check.py:118-151 | the position of each part of the message: header, version and name first, the pre-release note at index 3 iff pre-release, then the URL, the heading and the assets, the truncated notes at index 4 or 5 (plus the number of assets and the heading when there are assets), and only keyword warnings after them |
| Monitor.Check | python/cnode_check.py:83-116 | a failed request changes nothing, returns nothing and sends one warning; a successful one leaves its tag as the last known and sends nothing; a release is returned exactly when a previous tag exists and differs from the fetched one, and it is the fetched release |
| Monitor.CardanoNodeMonitor.constructor | python/cnode_check.py:47-62 | the monitor starts with the tag read from the cache (absent without a cache), which is also what the cache holds |
| Monitor.CardanoNodeMonitor.SaveCache | python/cnode_check.py:64-70 | the cache now holds the tag kept in memory; nothing else changes |
| Monitor.CardanoNodeMonitor.CheckNewRelease | python/cnode_check.py:83-116 | the new last tag, the result and the warnings sent are those of `Check`; the cache is written exactly when the last tag changes, so the cache keeps matching memory |
| Monitor.Restart | python/cnode_check.py:54-70 | a monitor rebuilt from what the cache holds knows the same last tag |
| Monitor.RecheckIsQuiet | python/cnode_check.py:104-111 | checking the same feed answer a second time returns nothing and changes nothing |
| Monitor.FirstRunIsQuiet | python/cnode_check.py:99-103 | the first successful check without a known tag only seeds it; later reports are as if the monitor had started from that tag |
| Monitor.RunAllFailed | python/cnode_check.py:113-116 | with only failed requests, the last known tag stays |
| Monitor.RunLastSuccess | python/cnode_check.py:99-107 | after successive polls, the last known tag is the tag of the last successful request |
| Monitor.RunWarnings | python/cnode_check.py:113-116 | the number of warnings sent equals the number of failed requests |
| Monitor.RunNotifiesChanges | python/cnode_check.py:104-107 | the first report differs from the starting tag, and each report's tag differs from the previous report's |
| Monitor.RunNeverForgetsTag | python/cnode_check.py:99-107 | once a tag is known, no later check forgets it |
| Monitor.RunQuietKeepsTag | python/cnode_check.py:104-116 | from a known tag, checks that report nothing leave that tag in place |
| Monitor.Run | python/cnode_check.py:182-185 | the repeated `check_new_release` calls of the polling loop; it has no contract of its own, and `RunLastSuccess`, `RunWarnings` and `RunKnowsLastReport` state what it means |
| Monitor.RunKnowsLastReport | python/cnode_check.py:99-107 | after any report, the last known tag (the one written to the cache) is the tag of the most recent report |
| Monitor.RollbackIsReportedAgain | python/cnode_check.py:104-107 | a feed that goes back to an earlier release reports that release again |

## Left out

- The Telegram notifier (`TelegramNotifier.send_message`, the HTTP POST) is not modelled: the warning text is appended to the ghost log `sent`, and whether sending succeeded is ignored, as the code ignores it.
- The feed request (`requests.get`, `raise_for_status`, `response.json()`, the headers) is not modelled: its outcome is the parameter `FetchResult`. Any `RequestException` becomes `FetchFailed` with the exception text.
- Monitor.CardanoNodeMonitor.CheckNewRelease: a feed answer without `tag_name` raises `KeyError`, which escapes the method. It is not modelled, because every `ReleaseRecord` has a tag.
- `print` output and the clock (`datetime.now()`) are not modelled.
- The cache file and JSON are not modelled: the file is the field `persisted`.
- Monitor.CardanoNodeMonitor.SaveCache: a write that fails (the exception is caught and printed) is not modelled; the model's save always succeeds.
- Monitor.CardanoNodeMonitor.constructor: the value `_load_cache` reads is a parameter. An unreadable or corrupt file gives an absent tag, and what that file holds is not tracked.
- `notify` and `start_monitoring` are not modelled. They are console output and the endless polling loop with `time.sleep`. `Monitor.Run` gives the effect of successive checks.
- `check_interval`, the feed URL and the cache file name are configuration with no effect on the logic.
- VersionParser.ParseInt: only ASCII digit strings are numerals. Python's `int()` also accepts surrounding whitespace, a leading `+`, underscores between digits and non-ASCII decimal digits. The model rejects such tags with the fallback where Python would parse them. The model also has no limit on the number of digits. CPython 3.11 and later (and the 2022 security releases of 3.7 to 3.10) raise `ValueError` for a numeral of more than 4300 digits, which line 80 catches. So a tag whose first segment holds such a field, say `v` followed by 4301 ones and `-rc1`, parses in the model but falls back on those Pythons, and the pre-release note then differs. `ParseInts`, `ParseVersionComplete`, `ParseNumerals` and `ParseShownVersion` overreach in the same way for such fields.
- VersionParser.ParseVersionRejectsNonDigit: for the same reason, a `+`, a blank or an `_` inside the first field leads to the fallback in the model but can parse in Python.
- Strings.Lower: only ASCII letters are lower-cased. Python's `str.lower()` follows Unicode case mapping, which can also change the length of the text.
- MessageFormat.FormatTelegramMessage: only the asset names are kept from the feed's asset entries. An absent and an empty `assets` list are the same empty sequence.
