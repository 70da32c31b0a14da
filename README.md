# AI-training lawsuit tracker: report core in Dafny

This is a model of the report pipeline behind the AI-training-data lawsuit tracker. The tracker collects news articles on lawsuits about AI training data, turns each relevant article into a normalised lawsuit record, and merges records that describe the same case. It then renders a Markdown report with a lawsuit table, a table of CourtListener RECAP documents and a list of article URLs. The report is posted as it is rendered (`src/run.py:41-47`). `src/dedup.py` also defines `apply_deduplication`, which removes the rows of a `## 📰 AI Regulation News` table that earlier issue comments already listed, and the model covers it. No caller in the available source invokes it, and the report `render_markdown` writes has neither that section nor a `제목` column (its title column is `소송제목`), so on that report it would only prepend its summary.

There is one Dafny module per source file:

- `Strings` (`strings.dfy`) holds the Python string built-ins the code relies on. These are `strip`, `split`/`join`, ASCII `lower`, `in`, `replace`, whitespace collapsing, string `<` and `str(n)`.
- `Dedup` (`dedup.dfy`) models `src/dedup.py`: cutting out a section, parsing pipe tables, extracting URLs and deduplicating against earlier comments.
- `ComplaintParse` (`complaint_parse.dfy`) models `src/complaint_parse.py`: cause detection, sentence splitting, snippet selection and caption parsing.
- `Extract` (`extract.dfy`) models `src/extract.py`: the `Lawsuit` record, known-case enrichment, the case-number search, the reason heuristic, and the record building and merging in `build_lawsuits_from_news`.
- `Utils` (`utils.dfy`) models `slugify_case_name`.
- `Render` (`render.dfy`) models `render_markdown`.
- `Wrappers` (`wrappers.dfy`) holds `Option`.

The imperative parts of the source are Dafny methods with loops, each proved equal to a specification function. These are the section scan, the table and baseline loops, the cause and score loops, the record and merge loops of the build, and the line-appending renderer. The pure parts are functions. The promised properties are lemmas about those functions.

Some external inputs become parameters:
- the page fetch is a function from URL to text (`""` on failure);
- the clock is a given ISO date;
- the regular-expression tables the code treats as black boxes are predicates.

Where the code and its description differ, the model follows the code. Three cases stand out:
- in the snippet's fallback window, `.{0,80}` and `.{0,180}` stop at a line break, because the pattern has no DOTALL; only the whitespace inside `training\s+data` can span one;
- a missing RECAP link prints as `None`;
- the `No.` cell is renumbered from 1 only when the column exists.

## Model

| member | source | states |
|---|---|---|
| Dedup.ExtractSection | src/dedup.py:6-22 | the line scan returns exactly `Section`: the lines strictly between the last title line before the first closing `## ` line and that line, or to the end; `""` without a title line |
| Dedup.Section | src/dedup.py:6-22 | definition of `_extract_section` on the lines of the text and the span of `SectionSpan`; its shape is proved by `SectionSpanShape` and the loop by `ExtractSection` |
| Dedup.SectionSpanShape | src/dedup.py:11-22 | no span iff no line's stripped form starts with the title; otherwise the span starts right after a title line, holds no `## ` line and no title line, and ends at a `## ` line that is not a title line or at the end of the text |
| Dedup.ScanFromIsSpan | src/dedup.py:11-17 | the loop's scan, where each later title line restarts the section and the first other `## ` line stops it, equals the span defined by first and last positions |
| Strings.JoinSplit | src/dedup.py:8 | joining the pieces of `split(sep)` with `sep` gives back the text |
| Strings.SplitJoin | src/dedup.py:8 | splitting a join of sep-free pieces gives back the pieces |
| Dedup.SplitPipes | src/dedup.py:36 | the pieces of the split on unescaped pipes rejoin with `\|` to the row text, and no piece holds an unescaped pipe |
| Dedup.SplitRow | src/dedup.py:34-36 | definition of `split_row`: strip, split on unescaped pipes, drop the outer pieces, strip each cell; proved by `SplitRowCells` |
| Dedup.SplitRowCells | src/dedup.py:34-36 | every cell of `split_row` is whitespace-stripped and holds no unescaped pipe, so `\|` never splits a cell |
| Dedup.TableLinesOf | src/dedup.py:26 | every kept line is a line of the section whose stripped form starts with a pipe |
| Dedup.TableHeader | src/dedup.py:27-38 | fewer than three table lines give an empty header |
| Dedup.TableRows | src/dedup.py:27-47 | fewer than three table lines give no rows; every returned row has exactly as many cells as the header |
| Dedup.TableMeta | src/dedup.py:27-31 | fewer than three table lines give `("", "")`; otherwise both meta lines are table lines |
| Dedup.WithWidthMembers | src/dedup.py:40-45 | a row is kept iff it is one of the split rows and has the header's width |
| Dedup.WithWidthAppend | src/dedup.py:40-43 | the width filter distributes over concatenation, so kept rows stay in source order |
| Dedup.ParseTable | src/dedup.py:24-47 | the method returns `TableHeader`, `TableRows` and `TableMeta` of the section |
| Dedup.RowsOfWidth | src/dedup.py:39-45 | the row loop returns the split rows of the header's width, in order |
| Dedup.SchemeLen | src/dedup.py:51 | a match of `https?://` has length 7 or 8 and is that scheme |
| Dedup.LinkAtShape | src/dedup.py:51 | a `(https?://...)` group found at a position begins with `(`, starts with its scheme and holds no `)` |
| Dedup.FirstSomeSpec | src/dedup.py:51 | a left-to-right search finds nothing iff every position fails; otherwise it returns the value at a position before which every position fails |
| Dedup.FirstLinkSpec | src/dedup.py:51 | the search finds nothing iff no position holds a group; otherwise it returns the group at the leftmost position that holds one |
| Dedup.BeforeFirstSpec | src/dedup.py:53 | `split(sep)[0]` is a prefix of the text that does not contain `sep`, and is the whole text when `sep` is absent |
| Dedup.BeforeFirstKeepsScheme | src/dedup.py:53 | cutting at the first `&hl=` keeps the `http://` or `https://` start |
| Dedup.ExtractArticleUrl | src/dedup.py:49-54 | definition of `extract_article_url`: the first link group cut before `&hl=`; proved by `ExtractArticleUrlSpec` |
| Dedup.ExtractArticleUrlSpec | src/dedup.py:49-54 | `None` iff the cell has no `(http://...)` or `(https://...)` group. Otherwise the URL is the leftmost group cut before its first `&hl=`; it starts with its scheme and contains neither `)` nor `&hl=` |
| Dedup.IndexOfItem | src/dedup.py:73-74 | `None` iff the item is absent; otherwise the first index holding it |
| Dedup.ColumnUrlsMembers | src/dedup.py:73-78 | a URL is collected from a table iff it is the extracted URL of some row's title cell |
| Dedup.UnionAllMembers | src/dedup.py:64-78 | a URL is in the union iff it is in one of the per-comment sets |
| Dedup.Baseline | src/dedup.py:63-78 | definition of the baseline as the union of the per-comment URL sets; proved by `BaselineMembers` and `BaselineSnoc`, and the loop by `CollectBaseline` |
| Dedup.BaselineMembers | src/dedup.py:63-78 | the baseline holds exactly the URLs of the news tables of all the comments, not just the last |
| Dedup.CommentTableUrls | src/dedup.py:68-78 | the per-comment loop yields the URLs of that comment's news table, or none if it has no `제목` column |
| Dedup.ColumnUrlSet | src/dedup.py:75-78 | the row loop adds exactly the extractable URLs of the title column |
| Dedup.CollectBaseline | src/dedup.py:64-78 | the comment loop yields `Baseline(comments)` |
| Dedup.BaselineSnoc | src/dedup.py:67-78 | each further comment adds exactly its own table's URLs to the baseline |
| Dedup.KeptRows | src/dedup.py:96-102 | definition of the skip filter over the current rows; proved by `KeptRowsMembers`, `KeptRowsAppend` and `KeptRowsWidth`, and the loop by `KeepNewRows` |
| Dedup.KeptRowsMembers | src/dedup.py:96-102 | a row is kept iff it is a current row whose URL is missing or not in the baseline |
| Dedup.KeptRowsAppend | src/dedup.py:96-102 | the row filter distributes over concatenation, so kept rows keep their original order |
| Dedup.KeptRowsWidth | src/dedup.py:96-102 | kept rows keep the header's width |
| Dedup.KeepNewRows | src/dedup.py:94-102 | the skip loop returns `KeptRows` of the current rows |
| Dedup.RenumberedCells | src/dedup.py:109-111 | the k-th rebuilt row has the cell width it had; its `No.` cell is `str(first + k)` and every other cell is unchanged |
| Dedup.RenumberRows | src/dedup.py:107-113 | the new lines are the header line, the separator line and then each kept row, renumbered from 1 |
| Strings.NatToStringRoundTrip | src/dedup.py:111 | `str(n)` is a decimal numeral whose value is `n` |
| Strings.ReplaceAtFirst | src/dedup.py:114 | on any text, `replace` keeps everything before the first occurrence, rewrites that occurrence and goes on in the rest; with `ReplaceAbsent` this fixes the result, so every non-overlapping occurrence is rewritten |
| Strings.ReplaceEveryOccurrence | src/dedup.py:114 | two back-to-back occurrences are both rewritten, so `replace` is not replace-first |
| Strings.ReplaceAbsent | src/dedup.py:114 | `replace` leaves a text without the pattern unchanged |
| Dedup.NewCount | src/dedup.py:85-102 | the count of new rows never exceeds the number of current news rows |
| Dedup.DedupedReport | src/dedup.py:86-114 | definition of the rewritten report; its cases are proved by `DedupedReportCases`, its count by `NewCount` |
| Dedup.DedupedReportCases | src/dedup.py:86-114 | without a `제목` column the report is unchanged and nothing is new; with one and no new row, the placeholder replaces the section |
| Dedup.ApplyDeduplication | src/dedup.py:56-139 | no comments give `md` unchanged and no stats. Otherwise the output is the summary header followed by the rewritten report, `base_news` is the baseline's size, `new_news` is the count of kept rows, and `new_news + dup_news` is the number of current news rows |
| ComplaintParse.DetectCauses | src/complaint_parse.py:28-33 | the pattern loop returns exactly `Causes(text, table)` |
| ComplaintParse.Causes | src/complaint_parse.py:28-33 | definition of the matching labels in table order; proved by `CausesMembers`, `CausesInTableOrder` and `CausesDistinct`, and the loop by `DetectCauses` |
| ComplaintParse.CausesMembers | src/complaint_parse.py:28-33 | a label is reported iff some table entry with that label matches the text |
| ComplaintParse.CausesInTableOrder | src/complaint_parse.py:30-32 | the reported labels appear in table order, as a subsequence of the table's labels |
| ComplaintParse.CausesDistinct | src/complaint_parse.py:30-32 | with distinct table labels, every label is reported at most once |
| ComplaintParse.DetectCausesOnce | src/complaint_parse.py:6-15 | the eight cause labels are distinct, so the real table reports each cause at most once |
| ComplaintParse.Sentences | src/complaint_parse.py:23-26 | definition of `_sentences` as the kept stripped pieces of the split; proved by `SentencesSpec` |
| ComplaintParse.SentencesSpec | src/complaint_parse.py:23-26 | every returned sentence is stripped and longer than 10 characters, and the sentences are the stripped pieces in text order. No piece contains a break point, each piece but the last ends at `.`, `?` or `!`, and the pieces keep every non-whitespace character of the text |
| ComplaintParse.SplitSentencesKeepText | src/complaint_parse.py:25 | the split drops only whitespace |
| ComplaintParse.ScorePositive | src/complaint_parse.py:39-43 | a sentence's score is positive iff one of the patterns matches it |
| ComplaintParse.CountSignals | src/complaint_parse.py:39-42 | the score loop counts the matching patterns, at most one per pattern |
| ComplaintParse.ScoredShape | src/complaint_parse.py:38-44 | each scored entry is a sentence of the text with its own score, which lies in 1..number of patterns |
| ComplaintParse.ScoredWithAiTable | src/complaint_parse.py:17-21 | with the three `AI_DATA_PATTERNS`, every scored sentence scores 1, 2 or 3 |
| ComplaintParse.ScoredEmpty | src/complaint_parse.py:43-45 | nothing is scored iff no sentence scores |
| ComplaintParse.ScoreSentences | src/complaint_parse.py:37-44 | the sentence loop returns `Scored`, in sentence order |
| ComplaintParse.FirstMax | src/complaint_parse.py:52-53 | the chosen index has the maximal score and no earlier entry has that score, which is the head of the stable descending sort |
| ComplaintParse.SortedHead | src/complaint_parse.py:52-53 | the search for the head of the sort returns `FirstMax` |
| ComplaintParse.NextNewline | src/complaint_parse.py:47 | the first newline at or after a position, or the end of the text: where a `.` run of the window must stop, since `.` does not match a line break |
| ComplaintParse.Reach | src/complaint_parse.py:47 | the leading `.{0,80}` reaches at most 80 characters and never past a newline |
| ComplaintParse.FallbackWindow | src/complaint_parse.py:47 | definition of the fallback `re.search` window; proved by `FallbackWindowNone`, `FallbackWindowSpec` and `WindowShape` |
| ComplaintParse.FallbackWindowNone | src/complaint_parse.py:47-48 | the fallback search fails iff no keyword occurs anywhere in the text |
| ComplaintParse.FallbackWindowSpec | src/complaint_parse.py:47 | a found window is a slice of the text: it starts at most 80 characters before a keyword match with no newline in between, and ends 180 characters past the match or earlier at the first newline or the end of the text |
| ComplaintParse.WindowEnd | src/complaint_parse.py:47 | the greedy `.{0,180}` after the keyword ends at most 180 characters past it, crosses no newline, and stops earlier only at a newline or the end of the text |
| ComplaintParse.WindowShape | src/complaint_parse.py:47 | the window starts at the leftmost position that can reach a keyword, at most 80 characters with no newline before it, and no later keyword within reach is taken first |
| Strings.Strip | src/complaint_parse.py:49 | `strip()` is no longer than the text and has no whitespace at either end |
| Strings.StripSlice | src/complaint_parse.py:49 | `strip()` returns the slice of the text after its leading whitespace, and only whitespace follows that slice |
| Strings.StripBySlice | src/utils.py:20 | stripping a set of characters from both ends returns the slice after the leading run of them, and only characters of the set follow it |
| Strings.StripKeepsNonSpace | src/complaint_parse.py:49 | stripping drops only whitespace: the non-whitespace characters are kept in order |
| Strings.CollapseSpaces | src/complaint_parse.py:49 | `re.sub(r"\s+", " ", s)` leaves only single spaces and keeps every non-whitespace character in order |
| ComplaintParse.Tidy | src/complaint_parse.py:49 | the collapsed, stripped text is single-spaced, has no whitespace at either end and keeps every non-whitespace character of the input in order |
| ComplaintParse.Truncate | src/complaint_parse.py:50 | definition of the `max_len` cut with `…`; proved by `TruncateSpec` |
| ComplaintParse.TruncateSpec | src/complaint_parse.py:50 | the result is at most `max_len + 1` long. A longer text is cut to its first `max_len` characters plus `…`, a short one is returned unchanged, and single spacing is kept |
| ComplaintParse.Snippet | src/complaint_parse.py:35-54 | definition of `extract_ai_training_snippet`; proved by `SnippetSpec` and `SnippetWithoutSignals`, and the loops by `ExtractAiTrainingSnippet` |
| ComplaintParse.ExtractAiTrainingSnippet | src/complaint_parse.py:35-54 | the method returns `Snippet(text, max_len)` |
| ComplaintParse.SnippetSpec | src/complaint_parse.py:35-54 | the snippet is at most `max_len + 1` long, single-spaced and free of leading whitespace. When a sentence scored, it comes from a sentence of maximal score with no earlier sentence of that score |
| ComplaintParse.SnippetWithoutSignals | src/complaint_parse.py:45-51 | no scoring sentence and no fallback keyword give `""` |
| ComplaintParse.CaptionOf | src/complaint_parse.py:58 | the caption is a prefix of the text of at most 2500 characters |
| ComplaintParse.CleanName | src/complaint_parse.py:61-62 | a cleaned name is the whitespace-collapsed group with only spaces and commas dropped from its two ends: a slice of it that is single-spaced with no space or comma at either end |
| ComplaintParse.ExtractPartiesFromCaption | src/complaint_parse.py:56-69 | neither pattern matching gives `("미확인", "미확인")`. A caption match gives its two groups cleaned by `CleanName`; otherwise a loose match gives its two groups stripped of whitespace |
| ComplaintParse.CaptionPrefixOnly | src/complaint_parse.py:58 | the parties depend only on the first 2500 characters |
| Extract.EnrichFromKnown | src/extract.py:50-56 | definition of `enrich_from_known` on the lower-cased title and text; proved by `EnrichFromNoMatch` and `EnrichFromFirstMatch` |
| Extract.EnrichFromNoMatch | src/extract.py:50-56 | when no entry matches, the enrichment is `{}` |
| Extract.EnrichFromFirstMatch | src/extract.py:52-55 | the enrichment is the `enrich` map of the first matching entry in list order |
| Extract.EntryWithoutTermsNeverMatches | src/extract.py:53-54 | an entry with an empty term list never matches, so removing it changes nothing |
| Strings.LowerAppend | src/extract.py:51 | lower-casing distributes over concatenation |
| Extract.DigitRun | src/extract.py:11-13 | `\d+` at a position is the maximal run of digits there |
| Extract.SearchShapeSpec | src/extract.py:10-14 | a case-number pattern finds nothing iff no position matches; otherwise the result is the text at the leftmost matching position |
| Extract.FirstShapeMatchSpec | src/extract.py:59-62 | the patterns are tried in order: none found iff no pattern matches, otherwise the result of the first one that matches |
| Extract.ExtractCaseNumber | src/extract.py:58-63 | definition of `extract_case_number`; proved by `ExtractCaseNumberSpec` |
| Extract.ExtractCaseNumberSpec | src/extract.py:58-63 | the result is `미확인` iff no pattern matches; otherwise it is the leftmost match of the first matching pattern |
| Extract.OfficeNumberFound | src/extract.py:11-12 | `3:24-CV-01234` is found, case-insensitively, in a sample text |
| Extract.ExtractPartiesSimple | src/extract.py:65-69 | no match gives `("미확인", "미확인")`; a match gives its two groups, each stripped of whitespace |
| Extract.CaptionFallbackIsSimpleParse | src/complaint_parse.py:65-69 | when the caption pattern fails, the caption parser gives what the simple parser gives on the caption |
| Extract.ReasonHeuristic | src/extract.py:71-79 | the reason is always one of four fixed sentences |
| Extract.ReasonPriority | src/extract.py:71-79 | each sentence is returned iff its test holds on the lower-cased text and no earlier test does: shadow library or pirat first, then youtube with dmca, circumvent or technical protection, then lyrics or music publisher, then the default |
| Extract.OverrideOr | src/extract.py:95-96 | with `or`, the override is taken only when present and non-empty |
| Extract.GetOr | src/extract.py:99-103 | with `get(key, default)`, any present override wins, even an empty one |
| Extract.RecordFields | src/extract.py:93-121 | each record field comes from its override or its fallback as above. Parties are parsed from the case title, the date falls back to today, and the reason falls back to the heuristic on title and text |
| Extract.RecordOf | src/extract.py:108-121 | a record holds just its article's URL and the fixed history text |
| Extract.Records | src/extract.py:83-121 | definition of the gated records of the articles; proved by `RecordsFromRelevantItems`, `NoRelevantItemsNoRecords` and `RecordFields`, and the loop by `CollectRecords` |
| Extract.RecordsFromRelevantItems | src/extract.py:83-91 | every record comes from an article whose page text is non-empty and mentions a relevance keyword |
| Extract.NoRelevantItemsNoRecords | src/extract.py:83-91 | if no article passes the gate, there are no records |
| Extract.CollectRecords | src/extract.py:82-121 | the article loop, with its two `continue`s, returns `Records(items, env)` |
| Extract.RecordsHaveOneUrl | src/extract.py:119 | every record's URL list is sorted and duplicate-free |
| Extract.InsertSorted | src/extract.py:130 | inserting into a strictly sorted list keeps it strictly sorted and adds exactly the element |
| Extract.SortedUnique | src/extract.py:130 | `sorted(set(xs))` is strictly sorted with the same elements as `xs` |
| Extract.StrictlySortedUnique | src/extract.py:130 | two strictly sorted lists with the same elements are equal, so `sorted(set(...))` is determined by its set |
| Strings.LtTransitive | src/extract.py:131 | string `<` is transitive |
| Strings.LtTotal | src/extract.py:131 | of two different strings, one is less than the other |
| Extract.KeysSpec | src/extract.py:124-128 | the merge keys are distinct and are exactly the `(case_number, case_title)` pairs of the records |
| Extract.FirstIndex | src/extract.py:127-128 | the record kept for a key is the first record with that key |
| Extract.KeysInFirstOccurrenceOrder | src/extract.py:127-134 | the merged records come out in the order their keys first occur |
| Extract.UrlSetSpec | src/extract.py:130 | a key's URL set is exactly the URLs of the records with that key |
| Extract.MaxDateSpec | src/extract.py:131-132 | a key has a date iff it occurs; that date is one of its records' dates, and none of them is greater |
| Extract.MergeNewKey | src/extract.py:127-128 | a record with a new key adds it to the order and to the dict, and the merge state is kept |
| Extract.MergeKnownKey | src/extract.py:129-132 | a record with a known key updates only that entry's URLs and date, and the merge state is kept |
| Extract.MergeLawsuits | src/extract.py:123-134 | the merge loop returns one record per distinct key in first-occurrence order. Each record is the first one with that key, except that its URLs are the sorted, duplicate-free union and its date is the greatest |
| Extract.BuildLawsuitsFromNews | src/extract.py:81-134 | the build returns the merge of the records of the articles that pass the gate |
| Render.OrDefault | src/render.py:29-32 | `x or default`: `None` and `""` both give the default |
| Render.EscapedPipes | src/render.py:29-32 | after the escape, every pipe has a backslash before it |
| Render.EscapeRoundTrip | src/render.py:29-32 | undoing the escape gives back the text |
| Render.Link | src/render.py:28 | the link is the document URL unless it is missing or empty, then the PDF URL, which prints as `None` when missing |
| Render.LawsuitCells | src/render.py:16 | a lawsuit row has 9 cells |
| Render.RecapCells | src/render.py:33-34 | a RECAP row has 10 cells: five document fields, the four extracted cells and the link |
| Render.RecapCellsSpec | src/render.py:29-34 | a missing or empty plaintiff, defendant or cause shows `미확인` and a missing snippet shows `""`. In these four cells every pipe is escaped and the escape can be undone |
| Render.InsertByDate | src/render.py:27 | an insertion step keeps every document: a permutation plus the new one |
| Render.InsertByDateStable | src/render.py:27 | documents filed on the same day keep their input order |
| Render.SortByDateDesc | src/render.py:27 | the sorted documents are a permutation of the input; the order is proved by `SortByDateDescSpec` |
| Render.SortByDateDescSpec | src/render.py:27 | the sort is by filing date, descending; it is a permutation; for every date, the documents of that date are in input order |
| Render.RecapDocs | src/render.py:27 | at most 20 documents are listed: `min(20, n)` |
| Render.RecapDocsSpec | src/render.py:27 | the listed documents are ordered by date, descending, come from the input and are a prefix of the sorted list |
| Render.LawsuitSection | src/render.py:10-19 | no lawsuits give the single fallback sentence. Otherwise there are the title, header and rule lines, then one 9-cell row per lawsuit in input order |
| Render.RecapSectionShape | src/render.py:23-36 | the RECAP table appears only with documents. It has its title, header and rule lines, one row per listed document, and the closing blank |
| Render.UrlBlockShape | src/render.py:41-44 | a lawsuit's URL block is its `### title (case_number)` line, one `- url` bullet per URL in order, and an empty line |
| Render.UrlBlocksSpec | src/render.py:39-44 | the URL section holds the blocks of the lawsuits one after another, in input order |
| Render.ReportLayout | src/render.py:8-38 | the report always opens with the heading, followed by the divider and the `## 기사 주소` heading at their fixed places |
| Render.AppendLawsuitRows | src/render.py:14-17 | the loop appends one row per lawsuit |
| Render.AppendRecapRows | src/render.py:27-35 | the loop appends one row per listed document |
| Render.AppendBullets | src/render.py:42-43 | the loop appends one bullet per URL |
| Render.AppendUrlBlocks | src/render.py:40-44 | the loop appends each lawsuit's block in turn |
| Render.AppendLawsuitSection | src/render.py:10-19 | appends `LawsuitSection` |
| Render.AppendRecapSection | src/render.py:23-36 | appends `RecapSection` |
| Render.AppendUrlSection | src/render.py:38-46 | appends the blocks, or only `- (기사 주소 출력 실패)` when there are no lawsuits |
| Render.ReportLines | src/render.py:6-48 | definition of the report's lines section by section; proved by `ReportLayout` and the section lemmas above |
| Render.RenderMarkdown | src/render.py:6-48 | the report is the join of `ReportLines` with newlines and always starts with the heading |
| Utils.KeepSlugAlphabet | src/utils.py:17 | only `a-z`, `0-9`, `-` and whitespace remain, and a text already in that alphabet is unchanged |
| Utils.DashSpaces | src/utils.py:18 | no whitespace remains and only dashes are introduced |
| Utils.CollapseDashes | src/utils.py:19 | no `--` remains, no new characters appear, the first character's dash-ness is kept, and a text without `--` is unchanged |
| Utils.StripDashesKeepsNoDoubleDash | src/utils.py:20 | stripping dashes from the ends keeps a text free of `--` |
| Utils.SlugifyCaseName | src/utils.py:11-20 | the slug has only `a-z`, `0-9` and `-`, no `--`, and no dash at either end; `None` and `""` give `""` |
| Utils.SlugIsFixedPoint | src/utils.py:15-20 | a slug is its own slug |
| Utils.SlugifyIdempotent | src/utils.py:15-20 | slugifying twice equals slugifying once |

## Left out

- `fetch_page_text` (src/extract.py:29-41) needs HTTP and HTML parsing. The page text comes from the parameter `Env.fetch`, a function from URL to text that is `""` on failure.
- `load_known_cases` (src/extract.py:43-48) reads YAML from a file. The known-case list is the parameter `Env.known`, with values as strings.
- `datetime.now(timezone.utc)` (src/extract.py:105) reads the clock. Today's ISO date is the parameter `Env.today`, and a published date is an optional ISO date string.
- `debug_log` (src/utils.py:4-9, called at src/dedup.py:45 and 99) only prints. It changes no state, so it is left out.
- The regular expressions of `CAUSE_PATTERNS`, `AI_DATA_PATTERNS`, the caption pattern and the loose `X v. Y` pattern are abstract predicates. The contracts are about order, selection and cleaning, not regex semantics. The case-number patterns, the URL group, the sentence split, the fallback keyword window and the slug substitutions are modelled concretely.
- Python's Unicode `lower()`, `\s`, `\d` and `\w` are modelled on ASCII. Whitespace is the ASCII part of `str.isspace`. `re.I` in the case-number patterns is ASCII case folding of `cv`.
- Render.RenderMarkdown: the source appends to one mutable list. The model threads the list through methods that return the extended sequence, so list identity is not modelled.
- Extract.MergeLawsuits: the source mutates records shared between `results` and `merged`. The model updates a map of values, so that aliasing is not modelled; after the loop `results` is dead in the source, so nothing observable depends on it.
- Extract.SortedUnique: `sorted(list(set(...)))` is modelled as insertion into a strictly sorted list. The result is the same sorted, duplicate-free list, shown unique by `Extract.StrictlySortedUnique`; the hash-set step is not modelled.
- ComplaintParse.SortedHead: the in-place stable sort of `scored` (src/complaint_parse.py:52) is observed only through its first element. The model computes that head, the earliest entry of maximal score, not the whole sorted list.
- ComplaintParse.FallbackWindow: the trailing `.{0,180}` is greedy and stops at a newline, and the model follows the code's lack of DOTALL. The `re.I` keyword match is ASCII case-insensitive.
- Extract.RecordsFromRelevantItems: the gate is stated as "every record comes from an item that passes the gate", one record index at a time.
- The header index `date_idx` (src/dedup.py:91) is computed but never used, so it is not modelled.
- `CLDocument` holds only the eleven fields `render_markdown` reads. `src/render.py:4` imports it from `src/courtlistener.py`, whose available text defines only `CLCaseSummary` (line 27), so its class is not part of this model. Its string fields are plain strings, and only the two links and the four extracted values are optional.
- ComplaintParse.TruncateSpec: a truncated snippet ends with `…`, but an untruncated one may end with `…` too, when the text itself does. So "ends with `…` exactly when truncated" is stated only in the truncating direction.
- ComplaintParse.Truncate: `max_len` is a `nat`. A negative `max_len` in Python would slice from the end and turn `""` into `"…"`; no caller in the available text passes one (`src/courtlistener.py:11` imports the function, and no call follows there), so the default 280 and negative values are not modelled.
- `src/courtlistener.py`, `src/pdf_text.py`, `src/fetch.py`, `src/github_issue.py`, `src/slack.py`, `src/run.py` and `src/queries.py` do HTTP, feed, PDF and API work or hold constants. They are not part of this model.
