# duyetbot site builders, modelled in Dafny

This project models the two build scripts of the duyetbot site, each as a Dafny module.

**`build.py`, the blog builder.** It reads Markdown posts that start with a `---` frontmatter block.
- It converts the body with a small line-oriented Markdown converter: headers, `- ` lists, paragraphs and `---` rules.
- It fills `{{ key }}` / `{{key}}` placeholders in HTML templates.
- It lists the posts on the index newest first.
- It writes an RSS 2.0 feed of the ten newest posts, with XML-escaped titles and descriptions and RFC 822 `pubDate`s (section 5 of RFC 822).

**`src/build.py`, the metrics extractor.** It feeds the site's dashboard.
- It folds the events of each agent session file into token and message counters.
- It groups the sessions by day.
- It lays the counters out over a 30-day window ending yesterday.
- It keeps the 20 most recent finished cron runs and gives each one a readable job name.

Modules:

- `Wrappers`: the `Option` type.
- `Text`: the Python `str` operations the scripts use, each stated for what Python does:
  - `strip`, `startswith`, `in` and `find`;
  - `split` on one character and `join`;
  - `replace`, which is leftmost and non-overlapping.
- `Order`: Python's `<` on strings, and the stable `sorted(..., reverse=True)`.
- `Calendar`:
  - the proleptic Gregorian calendar with day ordinals;
  - `strptime(s, "%Y-%m-%d")` with CPython's regular-expression semantics;
  - the `strftime` fields the scripts print.
- `Markdown`: `markdown_to_html`.
- `Blog`: the rest of `build.py`.
- `Metrics`: `src/build.py`.

Every loop of the source is a `method` with a `while` loop. Each method is proved equal to a specification function, and what the source promises is proved about that function. Two examples:
- `Markdown.ListPass` is the `in_list` loop. It equals `ListHtml`, which renders a decomposition of the lines into maximal item runs and other lines.
- `Metrics.AggregateByDay` is the `defaultdict` loop. Its keys are exactly the session dates, and each value is the per-date sum.

The only state updated in place is the list of cron runs that receives job names: `Metrics.AddJobNames` works on an `array`.

### Where the code and its description differ

The model follows the code in each of these cases:
- Posts are ordered by the `date` string alone, and equal dates keep their input order. No slug breaks ties.
- Only `.html` pages are written.
- No errors are reported per item.
- The index and the feed link to `posts/<date>.html`, while `build_post` names each page after its source file. For a file such as `2026-01-12-llm-ready-website.md` the two differ. The model keeps the date link: `Blog.CardOf` and `Blog.ItemOf`.

## Model

| member | source | states |
|---|---|---|
| Text.StripProperties | build.py:49-54 | the result is the input with a whitespace-only prefix and suffix removed (Python `isspace` set), it starts and ends with non-whitespace, and it is empty exactly when the input is all whitespace |
| Text.Find | build.py:44 | None exactly when the pattern does not occur; otherwise an occurrence with none further left |
| Text.SplitOn | build.py:49 | at least one piece, no piece contains the separator, and joining the pieces with it gives the input back |
| Text.SplitOnJoin | build.py:92-97 | splitting a join on a separator no piece holds gives the pieces back |
| Text.Replace | build.py:115 | text without an occurrence of the pattern is returned unchanged |
| Text.ReplaceCharConcat | build.py:267-272 | replacing one character distributes over concatenation |
| Order.SortDescProperties | build.py:193 | the sort is non-increasing by key, a permutation of its input, and stable: the elements with one key keep their input order |
| Order.TopOfSorted | build.py:278 | the first n of the sorted sequence are min(n, length) elements, sorted, the front of the sort, a sub-multiset of the input, and no element left out sorts before one kept |
| Order.BeforeTotal | build.py:193 | Python string order is total |
| Order.NotBeforeTransitive | build.py:193 | "not less than" is transitive |
| Calendar.DaysBeforeYearClosedForm | build.py:259-260 | the recursive count of days before a year equals the Gregorian closed form 365(y-1) + (y-1)/4 - (y-1)/100 + (y-1)/400 |
| Calendar.OrdinalOfFromOrdinal | src/build.py:186-190 | every day number from 1 to 3652059 names a valid date whose ordinal is that number |
| Calendar.FromOrdinalOfOrdinal | src/build.py:186-190 | every valid date is the date of its own ordinal |
| Calendar.ParseIsoValid | build.py:250 | a string `strptime` accepts gives a date with a year from 1 to 9999 and a day that exists in its month |
| Calendar.IsoRoundTrip | build.py:250-251 | parsing the `%Y-%m-%d` form of a valid date gives that date back |
| Calendar.IsoStringInjective | src/build.py:190 | distinct valid dates have distinct `%Y-%m-%d` forms |
| Markdown.HeadersCases | build.py:61-63 | a `### t` line becomes `<h3>t</h3>`, else `## t` becomes `<h2>t</h2>`, else `# t` becomes `<h1>t</h1>`, and any other line is unchanged; the text t must be non-empty |
| Markdown.HeaderPassesPerLine | build.py:61-63 | the three multiline substitutions over the whole text equal converting each line on its own |
| Markdown.BlocksProperties | build.py:75-92 | the decomposition of the lines into item runs and other lines is well formed, has no two adjacent item runs, starts with an item run exactly when the first line is an item, and its lines concatenate back to the input |
| Markdown.ListPass | build.py:75-92 | the `in_list` loop emits exactly `ListHtml`: `<ul>`, one `<li>x</li>` per `- x` line and `</ul>` around each maximal item run, other lines in order |
| Markdown.HrPass | build.py:115 | after the rule substitution no `---` is left: each run of three dashes became `<hr>`, and no copied dash joins with another into a new run |
| Markdown.HtmlHasNoRule | build.py:115 | the HTML of any text holds no `---` |
| Markdown.ListFromBlocks | build.py:78-90 | the line-by-line state machine equals rendering the block decomposition |
| Markdown.BlocksOfItems | build.py:79-83 | a non-empty run of items is a single list |
| Markdown.BlocksSplitAtPlain | build.py:84-88 | a non-item line closes the current list: the lines before and after it are decomposed independently |
| Markdown.RunsProperties | build.py:95-111 | the paragraph runs are non-empty sequences of non-blank lines that together are exactly the non-blank lines, in order |
| Markdown.ParagraphPass | build.py:95-111 | the `current`-buffer loop emits exactly `ParagraphHtml`: each maximal run of non-blank lines joined by single spaces, wrapped in `<p>` unless it starts with `<`, blank lines dropped |
| Markdown.ParaFromRuns | build.py:97-111 | the buffered loop equals rendering the maximal runs |
| Markdown.RunsOfNonBlank | build.py:98-99 | lines with no blank line among them form one paragraph |
| Markdown.RunsSplitAtBlank | build.py:100-106 | a blank line ends the paragraph: the lines before and after it are grouped independently |
| Markdown.ListHtmlResplit | build.py:92-97 | re-splitting the joined list output recovers its lines, so the paragraph pass sees the list pass's lines |
| Markdown.MarkdownToHtml | build.py:58-117 | the converter equals `Html`: headers, inline rewrites, list pass, paragraph pass, then every `---` becomes `<hr>` |
| Blog.SplitFrontmatter | build.py:41-46 | no frontmatter exactly when the content does not start with `---` or has no second `---`; otherwise the content is `---` header `---` rest with no `---` inside the header, nor one that starts in its last two characters: the header ends at the first closing `---` |
| Blog.FrontmatterBlock | build.py:44-46 | a header that holds no `---`, even followed by `--`, is split off exactly, with the rest after the closing `---` as body |
| Blog.EntrySplit | build.py:50-52 | a line gives an entry exactly when it holds `:`; the key and value are the stripped text before and after its first `:` |
| Blog.CollectKeys | build.py:49-52 | a key is in the map exactly when some line gives an entry with that key |
| Blog.CollectLast | build.py:52 | a repeated key keeps the value of its last line |
| Blog.StoreLine | build.py:50-52 | a line without `:` leaves the map as it is; a line with one sets the stripped text before its first `:` to the stripped text after it |
| Blog.ReadEntries | build.py:48-52 | the dict-filling loop yields the map the entries collect to |
| Blog.ParseFrontmatter | build.py:39-55 | without frontmatter, an empty map and the content unchanged; otherwise the map of the stripped header's lines and the stripped rest as body |
| Blog.RenderTemplate | build.py:120-126 | the loop performs both replacements for every pair in order; a template with no placeholder of any given key is returned unchanged |
| Blog.RenderedUnchanged | build.py:122-126 | substituting keys whose placeholders do not occur changes nothing |
| Blog.FillSpaced | build.py:124 | in text and value free of `{`, every spaced placeholder is replaced and no `{` remains |
| Blog.FillTight | build.py:125 | in text, key and value free of `{`, every tight placeholder is replaced and no `{` remains |
| Blog.NoSpacedInTight | build.py:124-125 | text built from tight placeholders holds no spaced placeholder of the same key |
| Blog.PlaceholderCanRemain | build.py:122-126 | with a one-character key that is its own value, `{{ {{k}} }}` renders to `{{ k }}`, a placeholder of a supplied key |
| Blog.ReplaceSegments | build.py:124-125 | on a template of `{`-free literal text and placeholders of brace- and space-free keys, one `replace` call turns exactly the placeholders it names into the value and leaves the literal text and every other placeholder as written |
| Blog.RenderSegments | build.py:120-126 | on such a template, with brace- and space-free keys and `{`-free values, the rendered text is the template with each placeholder of a supplied key, in either spelling, replaced by that key's value and every other placeholder left as written |
| Blog.RenderedComplete | build.py:120-126 | on such a template, when every key it uses is supplied, no `{` is left in the rendered text, so no placeholder survives |
| Blog.EscapeXmlPerChar | build.py:265-272 | the chain of five replacements escapes each character on its own, so `&` is never escaped twice |
| Blog.EscapeXmlConcat | build.py:265-272 | escaping distributes over concatenation |
| Blog.EscapeXmlChar | build.py:267-272 | a single character becomes its entity, or stays itself if it is not one of the five |
| Blog.EscapedHasNoMarkup | build.py:265-272 | the output contains no `<`, `>`, `"` or `'` |
| Blog.EscapedAmpersands | build.py:268 | every `&` of the output starts `&amp;`, `&lt;`, `&gt;`, `&quot;` or `&apos;` |
| Blog.UnescapeEscape | build.py:265-272 | decoding the five entities recovers the input |
| Blog.FormatDateFallback | build.py:247-253 | the display date equals its input exactly when `strptime` rejects it |
| Blog.FormatRfc822Fallback | build.py:256-262 | the RSS date equals its input exactly when `strptime` rejects it |
| Blog.FormatIsoDate | build.py:247-262 | for a valid date, `%b %d, %Y` and `%a, %d %b %Y 00:00:00 GMT` with the weekday of its ordinal |
| Blog.Rfc822Example | build.py:256-262 | 2026-02-16 prints as `Mon, 16 Feb 2026 00:00:00 GMT` and `Feb 16, 2026` |
| Blog.IndexOrder | build.py:193 | the index order has one entry per post |
| Blog.IndexOrderProperties | build.py:193 | the index lists every post once, newest date string first, with equal dates in input order |
| Blog.FeedOrderProperties | build.py:278 | the feed holds min(10, posts) posts, sorted by date descending, the front of the index order, and no post left out is newer than one kept |
| Blog.IndexExample | build.py:193 | a post of 16 February lists before one of 14 February |
| Blog.IndexCards | build.py:192-201 | one card per post in index order, with the formatted date, the date link, title and description defaults |
| Blog.FeedItems | build.py:277-287 | one item per feed post, with escaped title and description, the date link as link and guid, and the RSS date |
| Metrics.SessionOf | src/build.py:29-85 | a session's total tokens equal its input plus output tokens, and it counts at most one message per line |
| Metrics.ParseSession | src/build.py:29-85 | the loop gives None on a line that raises, with no session timestamp, or when the timestamp does not convert; otherwise the date and the summed counters |
| Metrics.MessageCountIsCount | src/build.py:54-62 | `messages` is the number of message events with a non-empty usage |
| Metrics.LastStampNone | src/build.py:50-69 | without a session event carrying a timestamp there is no session, because there is no timestamp |
| Metrics.LastStampAt | src/build.py:50-51 | the last session event carrying a timestamp decides the session timestamp |
| Metrics.TotalsAppend | src/build.py:58-62 | the counters add up over consecutive stretches of a file |
| Metrics.ReadSessions | src/build.py:172-206 | the loop keeps, in file order, the session of every file that yields one, and its running total is their token sum |
| Metrics.AggregateByDay | src/build.py:88-110 | the keys are exactly the dates of the sessions present, and each day holds the sums over that day's sessions |
| Metrics.DayTotalOutside | src/build.py:90-97 | a date without sessions has all-zero counters |
| Metrics.DaySessionsCount | src/build.py:103 | a day's `sessions` is the number of sessions present with that date |
| Metrics.AllDaysSum | src/build.py:99-108 | summed over distinct dates covering all sessions, the daily counters equal the counters of all sessions together |
| Metrics.DaysAddUp | src/build.py:99-108 | the days' `sessions` add up to the number of sessions and their `total_tokens` to the summary's token total |
| Metrics.FileRunsRecorded | src/build.py:133-144 | every run a cron file yields is recorded by one of its `finished` lines |
| Metrics.ReadCronFile | src/build.py:121-148 | the per-file loop keeps the finished runs in order; a line that raises, or a timestamp that does not convert, ends the file and keeps the runs before it |
| Metrics.ParseCronRuns | src/build.py:113-152 | all files' runs, sorted newest first by ISO timestamp, cut to 20 |
| Metrics.CronRunsProperties | src/build.py:133-152 | min(20, runs) runs, sorted by `timestamp_iso` descending, drawn from the runs read, none left out newer than one kept, and each recorded by a finished line of some file |
| Metrics.JobNameCases | src/build.py:155-161 | exactly the three ids of the table are known, and each gets its own name (Daily AI Report, Config Backup, Website Watch); any other id gets its first min(8, length) characters |
| Metrics.AddJobNames | src/build.py:222-224 | every run gets its job name in place, and nothing else about it changes |
| Metrics.DailyWindow | src/build.py:185-202 | 30 entries; entry i carries the date 30 - i days before today and that day's counters, zeros when the day is missing |
| Metrics.WindowDays | src/build.py:186-190 | entry i's date parses back to the day numbered today - 30 + i: the window runs from today-30 to yesterday |
| Metrics.WindowDistinct | src/build.py:186-190 | the window's dates are distinct and none of them is today |
| Metrics.GrandOfPresent | src/build.py:205-206 | the counters of all sessions together count each session once and each token once |
| Metrics.ExtractMetrics | src/build.py:164-239 | the record of `main`: the number of sessions, their token total and today's counters; the window over the per-day sums; the kept cron runs with job names |

## Left out

- File and console I/O is not modelled: reading templates and posts, globbing, `mkdir`, writing pages and `metrics.json`, and `print`.
- The fixed page layouts of `build_post`, `build_index` and `build_soul` are not modelled. Cards and feed items are records of their fields.
- JSON decoding is not modelled. Session and cron files are sequences of already classified lines: skipped, decoded, or raising.
- The clock and time zones are parameters:
  - `today` is a day number;
  - `toDate` stands for `fromisoformat` followed by `strftime('%Y-%m-%d')`;
  - `toLocal` stands for `fromtimestamp(ts / 1000)` and its two printed forms.
- `lastBuildDate` and `generated_at` are not modelled.
- The floating-point `cost` sums are not modelled.
- Metrics.ParseSession: timestamps and cron `ts` values that are not strings or integers are not modelled.
- Metrics.ParseCronRuns: `job_id` values that are not strings are not modelled either.
- Markdown.MarkdownToHtml: the bold, italic and link regexes are a parameter `inline` applied to each line. None of them can match across a newline, so applying them per line is exact, but their lazy-match semantics are not modelled.
- Calendar.ParseIso: only ASCII digits are accepted. Python's `\d` also accepts other Unicode digits.
- The one-shot scripts `fix_homepage.py` and `fix-code-blocks.py` are not part of this model.
- Blog.RenderTemplate: the contract does not promise that values free of `{{` leave no placeholder of a supplied key, because that is false. Blog.PlaceholderCanRemain is the counterexample. Blog.RenderedComplete states the form in which it holds: literal text free of `{`, keys free of braces and spaces, and values free of `{`.
- Calendar.Pad4: years below 1000 are printed zero-padded to four digits, as recent CPython's `strftime('%Y')` does. Some older platform C libraries print them unpadded.
- Metrics.ParseCronRuns: the in-place `list.sort` is modelled by the stable sort function on the collected sequence.
- Metrics.DailyWindow: it requires `today` to be later than day 30, because before that the date arithmetic of the source raises.
