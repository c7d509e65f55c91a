# Keno number analysers in Dafny

This project models the two text-to-statistics pipelines of a small Keno results
web application and proves properties of them.

1. **The game-record analyser** (`components/KenoAnalyzer.tsx`) takes an uploaded text
   file. It turns every non-blank line into a game record:
   - date is token 0, time is tokens 1 and 2, the draw id is token 3;
   - the winning numbers are the all-digit tokens in front of the last three;
   - BullsEye, Multiplier and Bonus8 are the last three tokens.

   `analyzeGames` then analyses the windows "All Games" and "Last 10/20/50/100 Games"
   that the record count can fill. For each window it counts how often each number
   occurs, sorts the counts in descending order, and reports the first ten numbers as
   hot and the last ten, reversed, as cold.
2. **The PDF analyser** (`analyzePDF` in `app/page.tsx`) seeds a count of 0 for every
   board number from 1 to 80. It splits the text into lines and matches each line
   against `Draw\s+(\d+(?:\s+\d+)*)\s+BullsEye`. On a matching line it adds one to the
   count of every captured number between 1 and 80, and adds one to the draw count.
   It returns the four entries with the smallest counts, together with the draw count.

The model is written as pure functions over sequences:

| file | module | models |
|---|---|---|
| `text.dfy` | `Text` | the JavaScript string operations involved: `\s` and `\d`, `split` on a character, `split(/\s+/)`, `trim`, `join`, `parseInt` |
| `frequency.dfy` | `Frequency` | a `{ [key: number]: number }` object as `Object.entries` lists it (ascending integer keys), and `t[n] = (t[n] \|\| 0) + 1` |
| `ranking.dfy` | `Ranking` | the stable `Array.prototype.sort` by count, in descending or ascending order |
| `records.dfy` | `GameRecords` | the line parser in `handleUpload`, and `parseGameNumbers` |
| `analysis.dfy` | `KenoAnalysis` | `analyzeGames`: window selection, the counting, hot and cold |
| `draw_pattern.dfy` | `DrawPattern` | a hand-written matcher for the one `Draw…BullsEye` pattern |
| `pdf_analysis.dfy` | `PdfAnalysis` | `analyzePDF` |

JavaScript's `undefined` is `None`. `undefined + ' '` gives the text "undefined", which
`Show` reproduces.

The draw-line regular expression is a deterministic scan. The scan needs no
backtracking:
- The first `\s+` must take all the whitespace before a digit.
- Every digit run must be maximal.
- Only the longest chain of runs can be followed by whitespace and "BullsEye".

`PatternAt` states the pattern declaratively, and the lemmas prove that the scan finds
exactly the leftmost place where the pattern holds. They also prove that the capture at
that place is unique.

The JavaScript sort is stable and `Object.entries` lists integer keys in ascending
order, so equal counts come out in ascending number order. `Ranking.RankedUnique`
shows that the arrangement "ordered by count, ties by ascending number" is unique. Any
stable sort therefore gives the model's result.

**A line without whitespace.** A non-blank line with no whitespace splits into a
single token (components/KenoAnalyzer.tsx:92), so `parts.slice(-3)` has one element
and `Multiplier` is `undefined` (lines 111-113). `analyzeGames` evaluates
`game.Multiplier.substring(1)` for every record of the "All Games" window (line 58),
and on such a record this throws a `TypeError`. The `catch` block (lines 121-126) then
sets an error message. `setAnalyses` (line 76) is never reached, so whatever analyses
were shown before stay on screen next to the error. The model returns `TypeError(i)`
from `KenoAnalysis.AnalyzeGames` for the first such record `i`, and
`GameRecords.MissingMultiplier` states exactly which lines lead to it.

## Model

| member | source | states |
|---|---|---|
| Text.Split | components/KenoAnalyzer.tsx:88 | `text.split('\n')` yields at least one piece, no piece holds a newline, and joining the pieces with newlines restores the text |
| Text.SplitJoin | components/KenoAnalyzer.tsx:31 | `split(sep)` undoes `join(sep)` for any non-empty list of pieces that contain no `sep` |
| Text.SplitWs | components/KenoAnalyzer.tsx:92 | `split(/\s+/)` gives at least one piece; pieces hold no whitespace, only the first and last can be empty, and there is a single piece exactly when the line has no whitespace |
| Text.SplitWsJoinBack | components/KenoAnalyzer.tsx:92 | putting the pieces back between non-empty whitespace runs gives the line again, so the pieces are the line's maximal non-whitespace runs |
| Text.SplitWsEnds | components/KenoAnalyzer.tsx:92 | the first piece is empty exactly when the line is empty or starts with whitespace, and the last exactly when it is empty or ends with whitespace |
| Text.SplitWsJoin | app/page.tsx:23 | splitting single-space-joined non-empty runs on whitespace gives back the runs |
| Text.Trim | components/KenoAnalyzer.tsx:88 | `trim()` is empty exactly for all-whitespace text, keeps no whitespace at either end, and leaves whitespace-free text unchanged |
| Text.TrimStrips | components/KenoAnalyzer.tsx:88 | the trimmed text is the input with a whitespace prefix and a whitespace suffix cut off; with `Trim`'s non-whitespace ends this fixes the result |
| Text.ParseInt | components/KenoAnalyzer.tsx:32-33 | `parseInt` of an all-digit string is its decimal value, of the empty string is NaN, and is a number only when some digit is present |
| Frequency.BumpLookup | components/KenoAnalyzer.tsx:56 | `t[n] = (t[n] \|\| 0) + 1` raises the count of `n` by one and leaves every other count alone |
| Frequency.BumpSum | components/KenoAnalyzer.tsx:56 | one increment raises the total of all counts by one |
| Frequency.Bump | components/KenoAnalyzer.tsx:56 | the keys stay in ascending order and gain `n` and nothing else |
| Frequency.Tally | components/KenoAnalyzer.tsx:53-57 | each key's count is its number of occurrences, numbers that never occur have no entry, and the counts sum to the number of numbers |
| Frequency.TallyEntries | components/KenoAnalyzer.tsx:53-57 | every entry's number occurs in the window, and its count is its occurrence count, at least one |
| Ranking.StableSort | components/KenoAnalyzer.tsx:62-64 | the sort is a permutation and orders ascending-key entries by count, ties by ascending number |
| Ranking.RankedUnique | components/KenoAnalyzer.tsx:64 | two arrangements of the same entries ordered by count and then by number are identical, so any stable sort gives the same result |
| Ranking.SortRanked | app/page.tsx:33-34 | sorting entries that are already in order leaves them unchanged |
| GameRecords.FindDigitToken | components/KenoAnalyzer.tsx:101 | `find` returns the first all-digit token, and `undefined` exactly when no token is all digits |
| GameRecords.IndexOf | components/KenoAnalyzer.tsx:101 | `indexOf` is -1 when the token is absent, and otherwise the first index holding it |
| GameRecords.WinningRunIsDigitTokens | components/KenoAnalyzer.tsx:101-107 | the winning run is exactly the all-digit tokens before the last three, in order; it is empty when no token is all-digit or there are at most three tokens |
| GameRecords.ParseJoinedDigits | components/KenoAnalyzer.tsx:30-34 | `parseGameNumbers` of the space-joined digit tokens returns their values, in the same order and with the same length |
| GameRecords.RecordNumbers | components/KenoAnalyzer.tsx:101-108 | the numbers read back from a record are the values of the line's digit tokens before its last three |
| GameRecords.NonBlankLinesMembers | components/KenoAnalyzer.tsx:88 | a line is kept exactly when it is one of the input lines and its trim is non-empty |
| GameRecords.NonBlankLinesCount | components/KenoAnalyzer.tsx:88 | the filter keeps one line per index whose line is not blank |
| GameRecords.RecordsFromNonBlankLines | components/KenoAnalyzer.tsx:88-91 | there is one record per non-blank line, in order, and an all-whitespace line yields no record |
| GameRecords.ParseLineOfTokens | components/KenoAnalyzer.tsx:91-116 | a line of four or more whitespace-free tokens separated by single spaces parses into Date = token 0, Time = tokens 1 and 2 with a space between, Draw = token 3, the winning numbers = the all-digit tokens before the last three, and BullsEye, Multiplier, Bonus8 = the last three tokens; nothing is validated |
| GameRecords.MissingMultiplier | components/KenoAnalyzer.tsx:111-113 | Multiplier is `undefined` exactly when the line has no whitespace |
| KenoAnalysis.SelectedWindows | components/KenoAnalyzer.tsx:37-46 | "All Games" is always first and only first; every window comes from the fixed table; each fixed window of 10, 20, 50 or 100 is present exactly when the records can fill it, in increasing order, and no window exceeds the record count |
| KenoAnalysis.SelectRangesCases | components/KenoAnalyzer.tsx:37-46 | the analysed windows for each band of record counts: only "All Games" below 10, then one more fixed window at 10, 20, 50 and 100 |
| KenoAnalysis.FirstMissingMultiplier | components/KenoAnalyzer.tsx:53-58 | finds the first record whose Multiplier is `undefined`, or reports that every record has one |
| KenoAnalysis.AnalyzeGamesResult | components/KenoAnalyzer.tsx:45-74 | the analysis fails exactly when some record lacks a Multiplier, naming the first; otherwise there is one analysis per selected window, over the first `count` records, with `drawCount == count` |
| KenoAnalysis.RankCounts | components/KenoAnalyzer.tsx:53-64 | the sorted entries hold one entry per distinct number with its occurrence count, ordered by descending count |
| KenoAnalysis.RankCovers | components/KenoAnalyzer.tsx:53-63 | every number of the window has a sorted entry |
| KenoAnalysis.HotNumbers | components/KenoAnalyzer.tsx:62-68 | hot has min(10, distinct numbers) entries, in non-increasing count order, each with its true count |
| KenoAnalysis.HotDominates | components/KenoAnalyzer.tsx:68 | no number left out of hot occurs more often than any hot number |
| KenoAnalysis.ColdNumbers | components/KenoAnalyzer.tsx:69 | cold has min(10, distinct numbers) entries, in non-decreasing count order, each with its true count |
| KenoAnalysis.ColdestFirst | components/KenoAnalyzer.tsx:69 | the first cold number has the window's smallest count |
| KenoAnalysis.ColdDominated | components/KenoAnalyzer.tsx:69 | no number of the window left out of cold occurs less often than a cold number, and on a tie the cold number is the larger: cold is the least frequent end of the ranking |
| KenoAnalysis.HotColdDisjoint | components/KenoAnalyzer.tsx:68-69 | hot and cold share no number exactly when there are at least 20 distinct numbers or none at all |
| KenoAnalysis.Reverse | components/KenoAnalyzer.tsx:69 | `reverse()` keeps the length and puts element `i` at position `length-1-i` |
| DrawPattern.MatchFrom | app/page.tsx:21 | the scan returns the first position where a match attempt succeeds, and fails only if every attempt fails |
| DrawPattern.MatchAtSound | app/page.tsx:21 | every successful match attempt is a place where the pattern holds |
| DrawPattern.MatchAtComplete | app/page.tsx:21 | wherever the pattern holds, the match attempt succeeds with that capture |
| DrawPattern.MatchAtIff | app/page.tsx:21 | a match attempt succeeds exactly where the pattern holds |
| DrawPattern.PatternUnique | app/page.tsx:21 | at a given position the pattern allows only one capture |
| DrawPattern.MatchDrawSound | app/page.tsx:21 | a returned capture comes from a place where the pattern holds, with no match to its left |
| DrawPattern.MatchDrawComplete | app/page.tsx:21 | the leftmost place where the pattern holds gives `match[1]` |
| DrawPattern.MatchDrawNone | app/page.tsx:21-22 | `line.match` is null exactly when the pattern holds nowhere in the line |
| DrawPattern.CaptureIsChain | app/page.tsx:21 | the capture is digit runs separated by whitespace, with a digit at both ends |
| DrawPattern.ChainNumbers | app/page.tsx:23 | every piece of the split capture is a digit run that `parseInt` reads as its value |
| DrawPattern.DrawNumbersOfRuns | app/page.tsx:23 | space-joined digit runs split and parse back to their values, in order |
| DrawPattern.SampleLine | app/page.tsx:21-23 | "Draw 5 12 47 BullsEye" captures "5 12 47", which reads as 5, 12, 47 |
| PdfAnalysis.InitialTable | app/page.tsx:12-15 | the table has exactly the keys 1 to 80, in order, each with count 0 |
| PdfAnalysis.BumpAt | app/page.tsx:26 | `frequency[num]++` on an existing key raises that entry's count in place |
| PdfAnalysis.CountNumbers | app/page.tsx:24-28 | every board number gains its occurrences among the parsed values, the keys stay 1 to 80, and the total rises by the number of values in 1 to 80 |
| PdfAnalysis.LineNumbersParsed | app/page.tsx:23-25 | on a draw line `parseInt` never yields NaN and never a negative value |
| PdfAnalysis.ScanCounts | app/page.tsx:17-31 | after the lines, each board number's count is its occurrence count among the draw lines' numbers, and the draw count is the number of matching lines |
| PdfAnalysis.ScanSum | app/page.tsx:23-28 | the 80 counts add up to the number of captured values in 1 to 80 |
| PdfAnalysis.ScanLine | app/page.tsx:20-31 | a non-matching line changes neither the table nor the draw count; a matching line adds exactly one draw |
| PdfAnalysis.NoMatchNothingDrawn | app/page.tsx:20-31 | with no matching line there are no captured numbers |
| PdfAnalysis.CountLines | app/page.tsx:17-31 | the loop ends with the table and draw count of the scan over all lines |
| PdfAnalysis.LeastFrequentFacts | app/page.tsx:33-35 | the report has 4 distinct board numbers, ordered by count and then by number, each with its count |
| PdfAnalysis.LeastFrequentMinimal | app/page.tsx:33-35 | no unreported board number has a smaller count than a reported one, and on a tie the reported number is smaller |
| PdfAnalysis.ReportMinimal | app/page.tsx:33-35 | every board number left out of the report sorts after every reported entry by its occurrence count, ties by number |
| PdfAnalysis.LeastOfUntouched | app/page.tsx:12-15 | a table of zero counts is reported as numbers 1 to 4, all with count 0 |
| PdfAnalysis.Report | app/page.tsx:33-35 | the report lists 4 distinct board numbers with their occurrence counts in count order, and is numbers 1 to 4 with count 0 when no line matched |
| PdfAnalysis.AnalyzePdf | app/page.tsx:11-41 | `totalDraws` is the number of matching lines; `leastFrequent` has 4 distinct board entries in count order, each with its occurrence count, and every board number left out has a larger count, or an equal count and a larger number; it is numbers 1 to 4 with count 0 when no line matched |

## Left out

- Average multiplier and average BullsEye (components/KenoAnalyzer.tsx:50-51, 58-59, 70-71) are left out. They are floating-point divisions with `NaN` propagation, including 0/0 for an empty window. Only the `TypeError` that line 58 throws on a missing Multiplier is modelled.
- The React components, hooks, state setters and rendering are presentation only and are left out.
- Reading the file (`file.text()`), and the `try`/`catch` message texts, are I/O and UI state. The failure itself is `Outcome.TypeError`.
- Text.ParseInt: models leading whitespace, an optional sign and the longest run of decimal digits. It does not model the `0x` hexadecimal prefix or the precision loss of huge values. Every string the analysers actually parse is a digit run or trimmed text, and integers are unbounded here.
- Frequency.Tally: lists all integer keys in ascending order. JavaScript orders only array-index keys (below 2^32 - 1) that way. Every number the record parser produces is a non-negative digit-run value. Values at or above that bound are still counted, but the model lists them in ascending order where JavaScript lists such keys after the index keys, in insertion order. A value of 10^21 or more (from a winning-run token of 22 or more digits) becomes a key in exponent notation such as "1e+21", which `parseInt` on components/KenoAnalyzer.tsx:63 reads back as its leading digit; the model reports the exact value instead.
- `Object.entries` in `app/page.tsx` returns string keys ("1" to "80"). The model keeps them as the integers they spell. The `parseInt(num)` of the key on components/KenoAnalyzer.tsx:63 gives back the integer for every key below 10^21 (larger keys are on the `Frequency.Tally` line).
- `script.js` only schedules empty timer callbacks and holds no logic.
- PDF text extraction, and any scan for runs of consecutive numbers, appear in no source file of the model. The text is taken as given.
- A general regular-expression engine is left out. Only the one `Draw…BullsEye` pattern is implemented.
