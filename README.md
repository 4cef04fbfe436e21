# line-translator-bot: the text-rewriting core

The bot in `main.py` translates chat messages between Indonesian and
Traditional Chinese. Between the chat webhook and the external translator it
runs a deterministic text pipeline, and that pipeline is modelled here:

- `process_message` strips the message and rejects empty or all-punctuation
  text. It decides the language, then sends the text down one of two branches.
- The Indonesian branch lower-cases the text and expands chat abbreviations
  from a 182-entry lexicon. It then pre-processes the result: `N點M` and `N點`
  become clock times, and colloquial `jam …` times become 24-hour `HH:MM`.
  The result goes to the translator, and the Chinese answer is polished.
- The Chinese branch polishes the input, then translates it.
- Both branches log a row to a spreadsheet: the stripped message and the
  branch's result, without the `🗣️ 翻譯結果：` reply prefix. The result is
  the polished translation in the Indonesian branch and the raw translation
  in the Chinese branch.
- Fixed sentinel replies cover blank input, an undetectable language and an
  unsupported language.

The modules follow the program's structure:

| file | module | models |
|---|---|---|
| `chars.dfy` | `Chars` | character classes, `str.strip`, ASCII `lower`, `\b` |
| `numerals.dfy` | `Numerals` | decimal numerals, `:02d` padding, Python's `round` on exact fractions |
| `clock.dfy` | `Clock` | `hour_min_to_24` |
| `patterns.dfy` | `Patterns` | the regular expressions of the core, as hand-written matchers |
| `rewriting.dfy` | `Rewriting` | the left-to-right scan of `re.sub` and `str.replace` |
| `expander.dfy` | `Expander` | `expand_abbreviations` |
| `lexicon.dfy` | `Lexicon` | the lexicon of main.py:66-262, all 182 entries |
| `polisher.dfy` | `Polisher` | `polish_chinese` and its table |
| `language.dfy` | `Language` | `detect_language` |
| `time_converter.dfy` | `TimeConverter` | `convert_jam_to_hhmm` and `preprocess_text` |
| `pipeline.dfy` | `Pipeline` | `translate_text`, `save_to_sheet`, `process_message`, plus a `Bot` class holding the log and the translator calls |
| `expander_examples.dfy`, `time_examples.dfy`, `pipeline_examples.dfy` | `ExpanderExamples`, `TimeExamples`, `PipelineExamples` | worked inputs with their exact outputs |

Code that updates variables step by step is written as methods with loops
or reassignments. Each method is proved equal to a specification function,
and the properties are proved about those functions. This covers
`expand_abbreviations`, `polish_chinese`, the three passes of
`convert_jam_to_hhmm`, `hour_min_to_24`, the substitution scan and
`process_message`. `detect_language` is pure and is modelled as a function.

Three collaborators are parameters:

- the translator: a `Translator` function returning `None` where
  `GoogleTranslator` raises;
- the statistical fallback detector: a `Detector` returning `None` where
  `langdetect` raises;
- the spreadsheet: the `Bot.sheet` sequence and the `sheetAvailable` flag.

Where the behaviour of the code differs from its own comments or from a
natural reading of the design, the model follows the code:

- **Language decision.** The language is decided by comparing two counts:
  characters in U+4E00..U+9FFF, and letters that lower-case to `a`..`z`.
  This second class includes the Kelvin sign.
  - A tie goes to the detector, whose code is then used as given: `id…`
    counts as Indonesian and `zh…` as Chinese.
  - A detector failure, or an empty code, gives `⚠️ 無法偵測語言`.
- **Expansion chains.** Each lexicon key gets its own pass over the output
  of the previous pass, so expansions can chain: with the lexicon's `aj`,
  `ajh` and `aja`, the text `ajh` becomes `就好`.
- **Expansion runs before time conversion.** The lexicon maps `jam` to
  `pukul` (main.py:109). So a spaced `jam 9` reaches the translator as
  `pukul 9` and is never converted, while `jam9` becomes `09:00`. The period
  words `pagi`, `siang`, `sore` and `malam` are lexicon keys too
  (main.py:92-95), so in the pipeline they are expanded before the converter
  sees them.
- **Minutes.** Minutes are never range-checked: `jam 9:75` converts to
  `09:75`.
- **Period pattern with a decimal.** The period pattern claims
  `jam 9.5 pagi` first and reads the `5` as minutes, giving `09:05`.
- **Decimal hours after two digits.** In `jam 12.35` the decimal pattern
  takes `12` as the hour and `.35` of an hour as the minutes, giving `12:21`.
- **No other services.** The code has no cache, no rate limiter and no
  second translation provider.
- **The `p.m.` boundary.** The final `\b` of the period pattern never
  accepts `a.m.`/`p.m.` at the end of a message or before a space; see
  Findings. `Patterns.PeriodEnd` models both readings of that `\b`:
  - `WordBoundary` is the code as written. `TimeConverter.Preprocess` and
    the whole pipeline use it, so `jam 9 p.m.` is pre-processed to
    `09:00 p.m.`;
  - `NoWordCharAfter` is the evident intent. `TimeConverter.PreprocessIntended`
    uses it, and pre-processes `jam 9 p.m.` to `21:00`.

  The two readings agree on `pagi`, `siang`, `sore`, `malam`, `am` and
  `pm`, since each of these ends in a word character.

## Model

| member | source | states |
|---|---|---|
| Chars.Strip | main.py:488 | The result is the input minus exactly its leading and trailing whitespace: a slice `s[a..b]` with only whitespace before `a` and from `b` on. It is empty exactly when the input is all whitespace, and otherwise neither starts nor ends with whitespace. |
| Chars.LowerChar | main.py:501 | An ASCII capital becomes the small letter at the same place in the alphabet; every other character is unchanged, so no ASCII capital is left and word characters and letters keep their class. |
| Numerals.Pad2 | main.py:429 | `:02d` gives a digit string whose value is the number, at least two digits long, exactly two digits for numbers below 100, and with no leading zero from 10 on. |
| Numerals.RoundHalfEven | main.py:441 | Python's `round` of `num/den` is within half a unit of the fraction, and on an exact tie it is even. |
| Clock.Hour24 | main.py:416-428 | The printed hour is always below 24; without an evening or morning word it is the hour mod 24. |
| Clock.PeriodRules | main.py:419-428 | Evening words add 12 only below 12, morning words map only 12 to 0, `siang` changes nothing, and the result is taken mod 24. |
| Clock.TwelveHourPeriods | main.py:419-428 | On hours 1..12 a morning word gives hour mod 12 and an evening word hour mod 12 plus 12, in any letter case. |
| Clock.ClockText | main.py:429 | The text is `HH:MM…` with a two-digit hour below 24; the hour and the minute read back are the adjusted hour and the minute. The text has length 5 exactly when the minute is below 100, and the minute digits have no leading zero from 10 on. |
| Clock.HourMinTo24 | main.py:416-429 | The in-place hour updates and formatting produce `ClockText(hour, minute, period)`. |
| Patterns.PeriodWordFrom | main.py:432 | The alternative found matches at the position and is followed by the chosen end test; when none is found, no alternative from `k` on matches. |
| Patterns.JamHour | main.py:432 | A result means `\bjam` is written at `i`, and gives a maximal run of one or two digits starting right after the spaces that follow `jam`. Conversely, when `jam` is written at `i` and there is no result, no digit follows those spaces or three digits do. |
| Patterns.MatchJamPeriod | main.py:432-446 | A period-pattern match lies in the text and is replaced by a clock text. |
| Patterns.MatchJamDecimal | main.py:450-455 | A decimal-pattern match lies in the text and is replaced by a clock text. |
| Patterns.MatchJamBasic | main.py:459-464 | A basic-pattern match lies in the text and is replaced by a clock text. |
| Patterns.DianHourEnd | main.py:472 | There is a result exactly when one or two digits at `i` are followed by 點, and then it is the position of that 點. |
| Patterns.MatchDianWithMinutes | main.py:472 | `(\d{1,2})點(\d{1,2})` matches exactly when the hour digits and 點 are followed by a digit; the match takes a maximal run of at most two minute digits, and its replacement is the matched text with 點 turned into `:`. |
| Patterns.MatchDianHour | main.py:473 | `(\d{1,2})點` matches exactly where one or two digits are followed by 點; the match ends after 點, and its replacement keeps the hour digits and turns 點 into `:00`. |
| Rewriting.Scan | main.py:380 | The scan that builds the output piece by piece returns the specified substitution result. |
| Rewriting.RewriteScan | main.py:380 | One substitution pass, run as a scan, equals `Rewrite(rule, s)`. |
| Rewriting.ScanUpTo | main.py:380 | A stretch of the text where nothing matches is copied as it is. |
| Rewriting.RewriteFromAtMatch | main.py:380 | Where a match starts, its replacement is emitted and the scan resumes after it. |
| Rewriting.RewriteFromAtNoMatch | main.py:380 | Where no match starts, the character there is copied and the scan moves on by one. |
| Rewriting.RewriteWithoutMatch | main.py:380 | A pass that matches nowhere leaves the text unchanged. |
| Expander.SortByLength | main.py:377 | The sorted keys never increase in length, and each length class keeps the table's order, as the stable sort does. |
| Expander.SortPermutes | main.py:377 | The sorted key list is a permutation of the table. |
| Expander.InsertKeepsLengthClasses | main.py:377 | Inserting an entry keeps every length class in order, with the new entry first in its own class. |
| Expander.ExpandAbbreviations | main.py:374-381 | The loop that reassigns `text` once per sorted key returns `Expand(table, text)`. |
| Expander.WholeWordPassIsWordwise | main.py:380 | For a key of word characters, the pass replaces exactly the whole words equal to the key ignoring case; it agrees with the word-by-word reference definition on every text. The two keys with a space, `tempat tidur` and `terima kasih`, are outside it. |
| Expander.WordPassUnchanged | main.py:380 | A key that occurs nowhere as a whole word leaves the text unchanged. |
| Expander.ExpandUnchanged | main.py:374-381 | A text in which no key occurs as a whole word comes out of expansion unchanged. |
| Expander.ExpandLongestFirst | main.py:377-380 | When no other key at least as long occurs, and nothing occurs after its pass, expansion is exactly the pass of that key: longer keys win over shorter keys inside them. |
| ExpanderExamples.ExpandSm2 | main.py:169-170 | On the two-entry lexicon excerpt `sm`, `sm2`, the text `sm2` expands to `sama-sama`, never `sama2`. |
| ExpanderExamples.SmPassOnSm2 | main.py:169 | `\bsm\b` does not occur inside `sm2`. |
| ExpanderExamples.ExpandAjhChains | main.py:140-142 | On the three-entry lexicon excerpt `aj`, `ajh`, `aja`, the text `ajh` becomes `aja` and then, in a later pass, `就好`: expansions chain. |
| ExpanderExamples.ExpandAjStops | main.py:140-142 | On the same three-entry excerpt, `aj` is expanded by the last, shortest pass, so its `aja` is not expanded again. |
| ExpanderExamples.ExpandTempatTidur | main.py:204 | On the three-entry lexicon excerpt `tidur`, `t`, `tempat tidur`, the two-word key `tempat tidur` is tried before `tidur` and `t`, giving `床`. |
| ExpanderExamples.ExpandT | main.py:120-121 | On the same excerpt, `t` becomes `tidur` after the `tidur` pass has already run, so it stays `tidur`. |
| ExpanderExamples.TempatTidurInDictionaryOrder | main.py:377 | On the same excerpt without the length sort, dictionary order would give `tempat 睡覺` instead of `床`. |
| Polisher.Polish | main.py:386-388 | The polished text always ends with a sentence mark (or one before a final line feed); it is the replaced text when that already ends so, and otherwise the stripped replaced text plus `。`. |
| Polisher.PolishChinese | main.py:383-388 | The replacement loop and terminal fix return `Polish(table, text)`. |
| Polisher.ReplaceAllWithoutKeys | main.py:384-385 | Text without 謝, 好 and `o` is left unchanged by the three replacements. |
| Polisher.PassRemovesKey | main.py:385 | After one `str.replace` pass whose value shares no final character with its key, the key occurs nowhere in the result, whatever the text. |
| Polisher.PassKeepsAbsent | main.py:385 | A `str.replace` pass whose value shares no final character with another key `k` creates no occurrence of `k`. |
| Polisher.PassWithoutKey | main.py:385 | A `str.replace` pass whose key does not occur leaves the text unchanged. |
| Polisher.ReplaceAllRemovesKeys | main.py:384-385 | After the three replacements none of `謝謝你`, `好的` and `ok` occurs, for every text. |
| Polisher.ReplaceAllWithoutPolishKey | main.py:384-385 | Text in which none of the three keys occurs is left unchanged by the replacements. |
| Polisher.PolishedWithoutKey | main.py:383-388 | No key of the table occurs in polished text: the terminal fix neither keeps nor creates one. |
| Polisher.PolishIdempotent | main.py:383-388 | Polishing twice gives the same text as polishing once, for every text. |
| Polisher.PolishEmpty | main.py:383-388 | The empty text polishes to `。`. |
| Polisher.PolishFailureSentinel | main.py:483 | The translator's failure text polishes to `⚠️ 翻譯失敗。`. |
| Polisher.PolishThanksYou | main.py:360 | `謝謝你` becomes `謝謝。`, which already ends with a mark. |
| Polisher.PolishUpperOk | main.py:362 | The replacement is case-sensitive: `OK` only gains `。`. |
| Language.Count | main.py:392-393 | A count never exceeds the length and is zero exactly when no character is in the class. |
| Language.CountIsPositions | main.py:392-393 | The count is the number of positions whose character is in the class, the size of that set of positions. |
| Language.OnlyIdeographsIsChinese | main.py:392-399 | A non-empty text of ideographs only is Chinese, whatever the detector says. |
| Language.OnlyLettersIsIndonesian | main.py:392-399 | A non-empty text of ASCII letters only is Indonesian, whatever the detector says. |
| Language.DetectLanguage | main.py:390-406 | The text is returned unchanged. More positions holding an ideograph than holding a Latin letter give `chinese`, more letters give `indonesian`, and equal numbers give the detector's answer (`None` on failure). |
| Language.CountAppend | main.py:392-393 | The count of a concatenation is the sum of the counts. |
| Language.CountIgnoresOrder | main.py:392-393 | Texts with the same characters, in any order, have the same counts. |
| Language.DecisionIgnoresOrder | main.py:395-399 | Reordering the characters keeps a tie a tie, and otherwise keeps the language. |
| Language.CountsDisjoint | main.py:392-393 | The two counts together never exceed the length: no character is in both classes. |
| TimeConverter.ConvertJamToHHMM | main.py:408-467 | The three reassignments of `text` compute the period, decimal and basic passes in that order. |
| TimeConverter.PreprocessText | main.py:469-476 | For `indonesian` the two 點 passes and the time conversion, with the period pattern's `\b` as written, run in order; for any other language the text is returned unchanged. |
| TimeConverter.JamRuleNeedsJam | main.py:432 | Each of the three `jam` patterns matches only where `jam` is written, in any letter case. |
| TimeConverter.ConvertWithoutJamUnchanged | main.py:408-467 | Text with no case-insensitive `jam` goes through the conversion unchanged. |
| TimeConverter.ConvertWithoutJ | main.py:408-467 | Text without the letter j goes through the conversion unchanged. |
| TimeConverter.FirstJamMatch | main.py:447-465 | The first pattern, in pass order, that matches at the start. |
| TimeConverter.ConvertSingleJam | main.py:447-465 | When the text's only j is its first letter, the conversion replaces what the first matching pattern in pass order matches, and copies the rest: later passes never re-match a clock text. |
| TimeConverter.PreprocessUnchanged | main.py:469-476 | Indonesian text with neither 點 nor the letter j is unchanged by pre-processing. |
| TimeExamples.Jam9 | main.py:459-464 | `jam 9` converts to `09:00`. |
| TimeExamples.Jam9Closed | main.py:459-464 | `jam9` converts to `09:00`. |
| TimeExamples.Jam3Sore | main.py:432-446 | `jam 3 sore` converts to `15:00`. |
| TimeExamples.Jam12Pagi | main.py:432-446 | `jam 12 pagi` converts to `00:00`. |
| TimeExamples.Jam930 | main.py:459-464 | `jam 9:30` converts to `09:30`. |
| TimeExamples.Jam975 | main.py:459-464 | `jam 9:75` converts to `09:75`: minutes are not range-checked. |
| TimeExamples.Jam95 | main.py:450-456 | `jam 9.5` converts to `09:30`. |
| TimeExamples.Jam95BasicMatch | main.py:459-464 | The basic pattern alone would read `jam 9.5` as `09:05`; the decimal pass runs first. |
| TimeExamples.Jam1235 | main.py:450-456 | `jam 12.35` converts to `12:21`. |
| TimeExamples.Jam95Pagi | main.py:432-446 | `jam 9.5 pagi` converts to `09:05`: the period pass claims it and reads `5` as minutes. |
| TimeExamples.Jam95PagiDecimal | main.py:450-455 | The decimal pattern alone would read `jam 9.5 pagi` as `09:30`. |
| TimeExamples.Jam9PmAsWritten | main.py:432 | As written, `jam 9 p.m.` converts to `09:00 p.m.`. |
| TimeExamples.Jam9PmIntended | main.py:432 | With the intended end test, `jam 9 p.m.` converts to `21:00`. |
| TimeExamples.Jam9PmPreprocessed | main.py:469-476 | As written, pre-processing `jam 9 p.m.` for Indonesian gives `09:00 p.m.`. |
| TimeExamples.Jam9PmPreprocessedIntended | main.py:469-476 | With the intended end test, pre-processing `jam 9 p.m.` for Indonesian gives `21:00`. |
| TimeExamples.Dian1230 | main.py:472 | `12點30` is pre-processed to `12:30`. |
| TimeExamples.Dian8 | main.py:473 | `8點` is pre-processed to `8:00`. |
| Pipeline.Process | main.py:487-520 | The reply is one of the three sentinels or starts with the reply prefix; a translator call is made exactly when a row is logged; a logged row holds the stripped message and the reply is the prefix plus the row's result; without a call the reply is a sentinel. |
| Pipeline.RepliesDistinct | main.py:490-520 | The three sentinels differ from each other and from every translated reply. |
| Pipeline.PromptExactlyWhenBlank | main.py:488-490 | The prompt to enter text is the reply exactly when the stripped message is empty or ASCII punctuation only, and then nothing is translated or logged. |
| Pipeline.UndetectedExactly | main.py:492-496 | `⚠️ 無法偵測語言` is the reply exactly when the language is undetected, with no call and no row. |
| Pipeline.UnsupportedExactly | main.py:518-520 | `⚠️ 僅支援中文與印尼文` is the reply exactly for a language neither Indonesian nor Chinese, with no call and no row. |
| Pipeline.IndonesianBranch | main.py:499-506 | Indonesian text is lower-cased, expanded and pre-processed and translated `id`→`zh-TW`; the answer is polished, logged with the stripped message, and replied with the prefix, ending with a sentence mark. |
| Pipeline.ChineseBranch | main.py:509-515 | Chinese text is polished first and translated `zh-TW`→`id`; the answer is logged and replied unpolished. |
| Pipeline.IndonesianFailure | main.py:503-506 | A failing translator in the Indonesian branch gives the reply `🗣️ 翻譯結果：⚠️ 翻譯失敗。`. |
| Pipeline.ChineseFailure | main.py:513-515 | A failing translator in the Chinese branch gives the failure text unpolished after the prefix. |
| Pipeline.Bot.TranslateText | main.py:478-483 | One translator call is recorded, and its answer or the failure text is returned. |
| Pipeline.Bot.SaveToSheet | main.py:367-372 | The row is appended when the spreadsheet is connected, and nothing is appended otherwise. |
| Pipeline.Bot.ProcessMessage | main.py:487-520 | The reply is `Process`'s reply, the translator was called with its request, and its row was appended when the spreadsheet is connected. |
| PipelineExamples.LexiconFits | main.py:66-262 | Every lexicon key is lower-case. No key other than `jam` and `sm2` equals a word-bounded piece of `jam 9`, `jam9`, `pukul 9` or `sama-sama`; `jam` maps to `pukul` and `sm2` to `sama-sama`. |
| PipelineExamples.JamInLexicon | main.py:109 | The lexicon holds `jam` → `pukul`. |
| PipelineExamples.ExpandJamNine | main.py:109 | With the whole lexicon, `jam 9` expands to `pukul 9`. |
| PipelineExamples.ExpandJamNineClosed | main.py:66-262 | With the whole lexicon, `jam9` is left as it is. |
| PipelineExamples.ExpandSmTwo | main.py:169-170 | With the whole lexicon, `sm2` expands to `sama-sama`: the `sm` entry does not touch it or its expansion. |
| PipelineExamples.IndonesianMessageSent | main.py:499-503 | A stripped, lower-case Indonesian message reaches the translator as its expanded and pre-processed text. |
| PipelineExamples.JamNineReachesTranslatorAsPukul | main.py:501-503 | The message `jam 9` reaches the translator as `pukul 9`. |
| PipelineExamples.JamNineClosedReachesTranslatorAsClock | main.py:501-503 | The message `jam9` reaches the translator as `09:00`. |

## Left out

- Web and chat plumbing is not modelled: the Flask routes, the LINE handler and reply, and start-up (main.py:523-563). It is network I/O.
- Spreadsheet credentials (main.py:42-63) are not modelled. The spreadsheet is the `Bot.sheet` sequence.
- Pipeline.Bot.SaveToSheet: an `append_row` that raises is logged and swallowed by the code. The model does not capture it: a connected sheet always receives the row.
- The translator and the statistical detector are parameters. `GoogleTranslator` and `langdetect` are foreign libraries; their answers, failures and seeding are outside the model.
- Floating-point arithmetic is not modelled: `round(float(...) * 60)` is computed on exact fractions with ties to even. Binary rounding artefacts are not captured.
- The `except` branch of `repl_period` (main.py:442-443) is not modelled. The matched text always has the form that `float` parses, so the branch cannot run.
- Python's regular-expression engine is not modelled in general. Each pattern of the core is a hand-written deterministic matcher.
- Patterns.MatchJamPeriod, Patterns.MatchJamDecimal and Patterns.MatchJamBasic: their contracts state only where a match lies and that it yields a clock text. What each pattern accepts is fixed by its definition and by the worked inputs of `TimeExamples`, not by a general regular-expression semantics.
- Expander.WholeWordPassIsWordwise: it requires a key of word characters only, so the lexicon's two keys containing a space, `tempat tidur` and `terima kasih`, are not covered by it. Their pass is fixed by the definition of the whole-word matcher and shown on `tempat tidur` by `ExpanderExamples.ExpandTempatTidur`.
- Unicode character classes are narrowed:
  - `\w` and `\b` use ASCII letters, digits, `_` and U+4E00..U+9FFF;
  - `\d` is ASCII digits;
  - `str.lower` and `re.IGNORECASE` fold ASCII letters only.

  Other scripts, full-width digits and non-ASCII case pairs behave differently in Python.
- The `chinese_indonesian_vocab` table (main.py:264-356) is not modelled. Nothing in the code reads it.
- Logging calls are not modelled. They have no effect on results.
- Concurrent handling of webhook requests is not modelled. The model handles one message at a time.
- Rewriting.Scan and the other methods return copies: strings in the code are immutable values, so there is no aliasing to capture.

## Findings

| source | as written | input that shows it | evidently intended | confidence | as-written member | corrected member |
|---|---|---|---|---|---|---|
| main.py:432 | The period alternatives `a\.m\.` and `p\.m\.` end in `.`. The final `\b` after them needs a word character next, so they are rejected at the end of a message or before a space. The basic pattern then converts only the hour. | `jam 9 p.m.` gives `09:00 p.m.` | `21:00`: the period word is recognised wherever no word character follows it | not executed | TimeExamples.Jam9PmPreprocessed | TimeExamples.Jam9PmPreprocessedIntended |
