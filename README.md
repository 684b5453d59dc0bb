# agent-skills: the deterministic core, modelled in Dafny

The repository is a set of automation scripts for an AI coding assistant,
plus a pytest harness that drives the assistant's command-line interface.
Around the calls into NLP libraries, language models and the file system,
the scripts hold small pieces of deterministic logic. This project models
that logic and proves what it promises:

- **Anonymizer** (`anonymize-doc/scripts/anonymize.py`), modules
  `Anonymize`, `Masking`, `Splicing` and `Entities`:
  - the span rewriting of `anonymize_text`, which replaces the spans last
    to first;
  - the strategy chosen per entity in `mixed` mode;
  - the `ValueError` that `_pseudonymize` raises on a malformed percentage;
  - masking and the department rename table;
  - the memoizing tokenizer, a class whose field is the token cache;
  - in `anonymize_file`, the de-duplication, the reversibility flag and
    the summary counts.
- **Detector bookkeeping** (`anonymize-doc/scripts/detect.py`), module
  `Detect`:
  - severity tables;
  - conversion of a position to a line and column;
  - in `detect_all`, de-duplication, the sort by severity rank and
    position, the three severity lists and the recommendation.
- **File-structure analyzer**
  (`summarize-for-context/analyze-structure.py`), module `Structure`:
  - the file type, taken from the extension and a transcript marker;
  - markdown sections, transcript cues and the CSV summary, each with the
    regular expression written out as a scanner;
  - the token and chunk arithmetic.
- **SKILL.md validator** (`test/harness/structural.py`), module
  `SkillValidation`:
  - the kebab-case rule;
  - the frontmatter checks;
  - the token warning;
  - the split of all messages into errors and warnings.
- **Behavioral harness** (`test/harness/behavioral.py`), module
  `Behavioral`:
  - the cost ledger, a class whose running total is always the sum of the
    per-test costs;
  - the cap guard;
  - prompt assembly;
  - the YES/NO verdict parser;
  - the memoized trace timestamp.
- **Mermaid handling** (`convert-md-to-pdf/scripts/converter.py`), module
  `Converter`:
  - extraction of the fenced blocks and their placeholders;
  - the render loop and the re-insertion loop;
  - the environment handed to the diagram renderer.
- **Test ordering** (`test/conftest.py`), module `TestOrdering`:
  - the in-place reordering of collected items, structural first and
    behavioral last;
  - the failure log that decides when behavioral tests are skipped.

Shared modules that model Python built-ins:

- `Strings`: `split`, `strip`, `join`, `replace`, `find`, `lower`/`upper`
  and `str(int)`.
- `Lists`: list comprehensions and `sum` over a map.
- `Sorting`: Python's stable `sorted`, as an insertion sort over an
  ordering relation.
- `Scanning`: the left-to-right, non-overlapping scan of `re.finditer`
  and `re.findall`, parameterized by the matcher of one pattern.
- `Wrappers`: `Option`, `Result`, and `Outcome` for a call that may raise.

Code that loops or updates state is written as methods with loop
invariants or as classes. Each such method is proved against a
specification function, and lemmas state the properties of those
functions.

Everything the logic gets from outside is an input:

- the file text and path parts;
- the entity lists of the detectors;
- the YAML and JSON parsers;
- the `claude` subprocess;
- the clock;
- Faker, SHA-256 and `secrets.token_hex`, bundled in an `Oracle` value.

## Model

| member | source | states |
|---|---|---|
| Anonymize.MixedStrategy | dstoic/skills/anonymize-doc/scripts/anonymize.py:48-52 | `hash` exactly for severity `high`; `pseudo` for every other severity, including ones missing from the table |
| Anonymize.Anonymizer.Tokenize | dstoic/skills/anonymize-doc/scripts/anonymize.py:217-222 | a cached text gets its cached token and the cache stays as it was; a new text gets `TKN_` plus eight fresh hex digits, which is stored; the token always has that form and the cache only gains entries |
| Anonymize.Anonymizer.ApplyStrategy | dstoic/skills/anonymize-doc/scripts/anonymize.py:115-124 | it raises `ValueError` exactly when the strategy is `pseudo` and the entity is a FINANCIAL_PCT whose number `float()` rejects, with no draw; otherwise the replacement is the one the named strategy makes (mask, digest, pseudonym, the text's token), and an unknown strategy returns the text itself; a non-DEPARTMENT pseudonym is the Faker draw whose number is the anonymizer's count of earlier draws, and exactly that path advances the count by one; only `token` touches the cache, which only grows |
| Anonymize.ReplacedExtends | dstoic/skills/anonymize-doc/scripts/anonymize.py:217-222 | a token replacement stays valid as later calls add entries to the cache, whatever the draw number |
| Anonymize.Anonymizer.MapEntity | dstoic/skills/anonymize-doc/scripts/anonymize.py:94-111 | it raises exactly when the entity's effective strategy raises; otherwise the mapping of the entity records its type, category and text, the effective strategy, the line and column of its start in the original text, and a replacement made by that strategy, a pseudonym from the next Faker draw; the draw count advances exactly when that strategy draws |
| Anonymize.Anonymizer.AnonymizeText | dstoic/skills/anonymize-doc/scripts/anonymize.py:81-113 | it raises `ValueError` exactly when some entity's strategy raises; otherwise one mapping per entity, in the stable descending-start order, each describing its entity, the k-th with Faker draw number the starting count plus the draws of the mappings before it; the count grows by the number of drawing mappings; the text is the spans rewritten last to first, and equals the splice of the original text when the spans are in bounds and disjoint |
| Anonymize.Anonymizer.RewriteSorted | dstoic/skills/anonymize-doc/scripts/anonymize.py:86-111 | the loop raises exactly when some sorted entity raises; otherwise it leaves one mapping per sorted entity, each with its own Faker draw number counted in mapping order, and the text rewritten at every sorted span |
| Anonymize.PctStart | dstoic/skills/anonymize-doc/scripts/anonymize.py:178 | the position where `re.search(r'[\d.]+')` starts its match: no digit or dot before it, and a digit or dot at it unless it is the end |
| Anonymize.PctRunMeaning | dstoic/skills/anonymize-doc/scripts/anonymize.py:178 | the run found is the leftmost maximal run of digits and dots, and there is none exactly when the text has no digit or dot |
| Anonymize.Pseudonymize | dstoic/skills/anonymize-doc/scripts/anonymize.py:147-184 | raises `ValueError` exactly for a FINANCIAL_PCT whose run is not a number (the HEADCOUNT overflow of 309-digit numbers is left out) |
| Anonymize.PctRaisesOnTwoDots | dstoic/skills/anonymize-doc/scripts/anonymize.py:177-180 | `1.2.3% growth` as FINANCIAL_PCT raises |
| Anonymize.PctRaisesOnLeadingDots | dstoic/skills/anonymize-doc/scripts/anonymize.py:177-180 | `...10% growth` as FINANCIAL_PCT raises |
| Anonymize.PctParsesOnPercentage | dstoic/skills/anonymize-doc/scripts/anonymize.py:177-180 | `12.5% margin` as FINANCIAL_PCT does not raise |
| Anonymize.DrawsDistinct | dstoic/skills/anonymize-doc/scripts/anonymize.py:147-184 | of two mappings where the earlier one draws from Faker, the later one's draw number is strictly larger, so no two drawing mappings share a draw |
| Anonymize.DrawsBeforeMonotone | dstoic/skills/anonymize-doc/scripts/anonymize.py:115-124 | the number of draws made by a prefix of the mappings never decreases as the prefix grows |
| Anonymize.DisjointFits | dstoic/skills/anonymize-doc/scripts/anonymize.py:83-84 | spans that are in bounds, taken in descending order, each ending before the previous one starts, meet the condition under which the rewriting is a splice |
| Splicing.RewriteIsSplice | dstoic/skills/anonymize-doc/scripts/anonymize.py:83-100 | for in-bounds spans in descending order without overlaps, replacing one span at a time gives the original gaps interleaved with the replacements: each replacement lands where its span was in the original text |
| Splicing.SpliceKeepsOutside | dstoic/skills/anonymize-doc/scripts/anonymize.py:100 | the text before the first span and after the last span is unchanged |
| Splicing.SpliceIdentity | dstoic/skills/anonymize-doc/scripts/anonymize.py:100 | replacing every span by its own text gives back the original text |
| Splicing.RewriteSnoc | dstoic/skills/anonymize-doc/scripts/anonymize.py:100 | rewriting one more span is one more step applied to the text rewritten so far |
| Masking.MaskEmailShape | dstoic/skills/anonymize-doc/scripts/anonymize.py:127-130 | one `*` per character before the first `@`, then `@***`, then the last `.`-piece of the domain with its dot, and nothing more when the domain has no dot or ends in one |
| Masking.KeptTldShape | dstoic/skills/anonymize-doc/scripts/anonymize.py:129 | the kept ending is empty exactly when the domain has no dot or ends in a dot; otherwise it is a dot followed by at least one dot-free character, and it ends the domain |
| Masking.MaskDigits | dstoic/skills/anonymize-doc/scripts/anonymize.py:133 | same length; each digit becomes `*` and every other character is kept |
| Masking.AmountLength | dstoic/skills/anonymize-doc/scripts/anonymize.py:139 | the greedy match of `[\d,]+\.?\d*`: at least one character, only digits, commas and dots, and a dot only right after the digit-and-comma run |
| Masking.MaskAmountsShape | dstoic/skills/anonymize-doc/scripts/anonymize.py:138-139 | same length; digits and commas become `*`, other characters except dots are kept, and a dot becomes `*` only inside an amount |
| Masking.MaskWords | dstoic/skills/anonymize-doc/scripts/anonymize.py:142 | the words of the result are, one for one, runs of `*` as long as the words of the text |
| Masking.FirstAt | dstoic/skills/anonymize-doc/scripts/anonymize.py:127-128 | none exactly when the text has no `@`; otherwise the position of an `@` with no `@` before it, where `split('@', 1)` cuts |
| Masking.Mask | dstoic/skills/anonymize-doc/scripts/anonymize.py:126-142 | EMAIL with an `@` gives the address mask at the first `@`, whose shape `MaskEmailShape` states; SSN gives `***-**-****`; PHONE and the monetary types keep the length; a PHONE result has `*` exactly at the digits and the stars of the text; every other type, and EMAIL without an `@`, gives one run of `*` per word, as long as that word |
| Masking.FirstKeyIn | dstoic/skills/anonymize-doc/scripts/anonymize.py:162-164 | the first table entry whose key occurs in the text, with no earlier key occurring, or none when no key occurs |
| Masking.DeptRenameMeaning | dstoic/skills/anonymize-doc/scripts/anonymize.py:160-165 | a department becomes `Operations` exactly when no key of the table occurs in its lower-cased text; otherwise it becomes the value of the first key, in table order, that occurs |
| Entities.KeepFirstPerKey | dstoic/skills/anonymize-doc/scripts/anonymize.py:237-243 | the loop with the `seen` set keeps the first entity of each `(start, end)` key |
| Entities.UniqueByPosition | dstoic/skills/anonymize-doc/scripts/anonymize.py:237-243 | the de-duplication sorts by start, then keeps the first entity of each key |
| Entities.FirstPerKeyKeys | dstoic/skills/anonymize-doc/scripts/anonymize.py:240-243 | the kept entities have exactly the keys of the input, so entities that overlap but have different keys are all kept |
| Entities.FirstPerKeyDistinct | dstoic/skills/anonymize-doc/scripts/anonymize.py:240-243 | no two kept entities share a key |
| Entities.FirstPerKeyFirst | dstoic/skills/anonymize-doc/scripts/anonymize.py:240-243 | each kept entity is the first one in the list with its key |
| Entities.FirstPerKeySorted | dstoic/skills/anonymize-doc/scripts/anonymize.py:239-243 | the kept entities come from the input, and a list sorted by start stays sorted |
| Entities.UniqueFacts | dstoic/skills/anonymize-doc/scripts/anonymize.py:237-243 | the result is sorted by start, has distinct keys, holds only input entities and every input key, keeps the first entity of each key after the stable sort, and is empty exactly when the input is |
| Anonymize.CountByType | dstoic/skills/anonymize-doc/scripts/anonymize.py:270-272 | a type is a key exactly when some mapping has it; its count is the number of mappings with that type; the counts add up to the number of mappings |
| Anonymize.KindCountPositive | dstoic/skills/anonymize-doc/scripts/anonymize.py:270-272 | a type's count is positive exactly when some mapping has that type |
| Anonymize.Summarize | dstoic/skills/anonymize-doc/scripts/anonymize.py:274-288 | the summary holds the number of mappings, the PII and business counts, and the per-type counts |
| Anonymize.MixedReversible | dstoic/skills/anonymize-doc/scripts/anonymize.py:264-265 | under `mixed`, some mapping is reversible exactly when some entity is not of high severity |
| Anonymize.SameMembers | dstoic/skills/anonymize-doc/scripts/anonymize.py:84 | sorting keeps the entities, so a property holds of some entity after sorting exactly when it did before |
| Anonymize.AnonymizeFile | dstoic/skills/anonymize-doc/scripts/anonymize.py:237-289 | the uncaught `ValueError` exactly when some distinct-span entity raises; the empty-input error exactly when nothing was detected; otherwise one mapping per distinct span, recording its entity in the descending-start order, and the audit log of the mappings and of the text rewritten at the sorted spans |
| Anonymize.BuildAuditLog | dstoic/skills/anonymize-doc/scripts/anonymize.py:263-289 | reversibility decided by the strategy (under `mixed`, by whether some mapping is reversible, which is whether some entity is not high), mappings kept only when reversible, and the summary of the mappings |
| Detect.LineColumn | dstoic/skills/anonymize-doc/scripts/detect.py:175-178 | the line is one more than the newlines before the position; the column is one more than the characters since the last newline before it |
| Detect.LineColumnOfStart | dstoic/skills/anonymize-doc/scripts/detect.py:175-178 | position 0 is line 1, column 1 |
| Detect.FirstLevel | dstoic/skills/anonymize-doc/scripts/detect.py:60-63 | the level of the first table entry that lists the type, or `low` when none does |
| Detect.PiiSeverity | dstoic/skills/anonymize-doc/scripts/detect.py:59-63 | `high` exactly for SSN, CREDIT_CARD and PASSWORD; `medium` exactly for EMAIL, PHONE, ADDRESS and IP; `low` exactly for every other type |
| Detect.BusinessSeverity | dstoic/skills/anonymize-doc/scripts/detect.py:168-172 | `high` exactly for REVENUE, COSTS, MARKET_SIZE and MONETARY_VALUE; `medium` exactly for PRICING, FINANCIAL_PCT, HEADCOUNT and DEPARTMENT; `low` exactly otherwise |
| Detect.SeverityRank | dstoic/skills/anonymize-doc/scripts/detect.py:206 | ranks are at most 3, and 3 exactly for an unknown severity |
| Detect.ByRankThenPositionIsPreorder | dstoic/skills/anonymize-doc/scripts/detect.py:207 | the sort key orders every pair and is transitive |
| Detect.LocateEach | dstoic/skills/anonymize-doc/scripts/detect.py:202-203 | every entity gets the line and column of its start |
| Detect.DetectAll | dstoic/skills/anonymize-doc/scripts/detect.py:192-222 | the entity list is the de-duplicated, located and sorted list, and the report is built from it |
| Detect.OrderedFacts | dstoic/skills/anonymize-doc/scripts/detect.py:193-207 | the list is sorted by severity rank, then line, then column; it holds detected entities with their own line and column; no `(start, end)` repeats; every detected key is present |
| Detect.SeverityPartition | dstoic/skills/anonymize-doc/scripts/detect.py:209-211 | the three severity lists together hold at most the whole list, and all of it exactly when every severity is high, medium or low |
| Detect.SameRankInReadingOrder | dstoic/skills/anonymize-doc/scripts/detect.py:207-211 | in the sorted list, the entities of one severity are in reading order |
| Detect.ReportFacts | dstoic/skills/anonymize-doc/scripts/detect.py:209-221 | the counts are the list lengths; each list holds only its severity, in reading order; the lists cover the total exactly when all severities are known; the recommendation follows the most severe non-empty list |
| Detect.Recommendation | dstoic/skills/anonymize-doc/scripts/detect.py:225-232 | high advice exactly when there is a high entity; medium advice exactly when there is no high but a medium entity; low advice likewise; none only when all three lists are empty |
| Structure.SuffixMeaning | dstoic/agents/summarize-for-context/analyze-structure.py:16 | the suffix is non-empty exactly when the name has a dot after its first character and does not end in a dot; it is then the last dot and the characters after it, and ends the name |
| Structure.MarkerAtMeaning | dstoic/agents/summarize-for-context/analyze-structure.py:22 | the transcript scanner matches at a position exactly when `[`, optional whitespace, `S`, optional whitespace and a digit are spelled there |
| Structure.DetectFileType | dstoic/agents/summarize-for-context/analyze-structure.py:14-29 | `csv` exactly for a `.csv` suffix in any case; `transcript` exactly for `.md`/`.markdown` with a marker in the first 2000 characters; `markdown` exactly for those suffixes without one; `text` exactly for `.txt`; otherwise `unknown` |
| Structure.DetectFileTypeLooksAtPrefix | dstoic/agents/summarize-for-context/analyze-structure.py:22 | only the first 2000 characters of the content matter |
| Structure.HeaderAtIsMatch | dstoic/agents/summarize-for-context/analyze-structure.py:34 | the header found at a position is a match of the header pattern; every match there has the same level and a title start no later than it (the greedy `\s+`); a header is found wherever the pattern can match |
| Structure.HeadersSound | dstoic/agents/summarize-for-context/analyze-structure.py:35 | every header listed is a match at a line start |
| Structure.HeadersComplete | dstoic/agents/summarize-for-context/analyze-structure.py:35 | every position where a header matches lies within a listed header |
| Structure.ExtractSectionsMarkdown | dstoic/agents/summarize-for-context/analyze-structure.py:31-52 | the loop builds the sections of `MarkdownSections` |
| Structure.MarkdownSectionsFacts | dstoic/agents/summarize-for-context/analyze-structure.py:31-52 | one section per header, at most 30; each body runs from the end of its header to the start of the next header or the end of the text; levels 1 to 3; titles of at most 80 characters that start with no space; previews of at most 150 characters without newlines |
| Structure.CueAtFacts | dstoic/agents/summarize-for-context/analyze-structure.py:58 | a cue starts with a marker, has a non-empty number of digits and a non-empty body without `[`, and ends where the lookahead holds |
| Structure.CuesSound | dstoic/agents/summarize-for-context/analyze-structure.py:59 | every cue listed is the match at its start |
| Structure.CuesComplete | dstoic/agents/summarize-for-context/analyze-structure.py:59 | every position where a cue matches lies within a listed cue |
| Structure.ExtractSectionsTranscript | dstoic/agents/summarize-for-context/analyze-structure.py:54-76 | `int(num)` raises `ValueError` exactly when one of the first 30 cues has a number of more than 4300 digits, CPython's default conversion limit; otherwise the loop builds the sections of `TranscriptSections` |
| Structure.CueSectionFacts | dstoic/agents/summarize-for-context/analyze-structure.py:63-73 | the number is the decimal value of the cue's digits; the word count is that of the cue body; the title is the first 10 words and the preview the first 25, joined by single spaces and cut to 80 and 150 characters, and when not cut their words are exactly those words; the title is a prefix of the preview |
| Structure.TranscriptSectionsFacts | dstoic/agents/summarize-for-context/analyze-structure.py:61-76 | at most 30 sections, one per cue in order, each with the bounds above |
| Structure.CsvSectionsFacts | dstoic/agents/summarize-for-context/analyze-structure.py:78-92 | exactly one record; one to ten stripped column names from the first line; the row count is the number of newlines of the stripped text; the preview is a prefix of the stripped text |
| Structure.ChunkCount | dstoic/agents/summarize-for-context/analyze-structure.py:131 | at least one chunk, and the smallest number of 1950-line chunks that holds the lines |
| Structure.EstimatedTokens | dstoic/agents/summarize-for-context/analyze-structure.py:111 | the largest whole number not above four thirds of the word count |
| Structure.AnalyzeFile | dstoic/agents/summarize-for-context/analyze-structure.py:106-131 | an error exactly for whitespace-only content; otherwise the uncaught `ValueError` exactly when the file is a transcript with an over-long cue number among its first 30 cues; otherwise the detected type, one more line than newlines, the word count, the estimate, chunking exactly above 2000 lines with at least two chunks then, and the sections for the type |
| SkillValidation.KebabMatchMeaning | test/harness/structural.py:21 | the full match of the kebab pattern holds exactly for a lower-case letter followed by letters, digits and hyphens, each hyphen followed by a letter or digit |
| SkillValidation.KebabMatchAsWrittenAcceptsNewline | test/harness/structural.py:39 | the check as written accepts `skill` followed by a newline, which is not kebab case |
| SkillValidation.NamingAsWrittenAcceptsNewline | test/harness/structural.py:34-41 | as written, `SKILL.md` in the directory `skill` followed by a newline draws no naming error; with the full match it draws one |
| SkillValidation.ApproxTokens | test/harness/structural.py:24-25 | a quarter of the length, rounded down |
| SkillValidation.FileExistsErrors | test/harness/structural.py:28-31 | no error exactly when the file exists |
| SkillValidation.ValidateNaming | test/harness/structural.py:34-41 | the two checks append the messages of `NamingErrors`: the file-name error, then the directory error, the directory tested with the full match |
| SkillValidation.NamingErrorsFacts | test/harness/structural.py:34-41 | one error per broken rule, so at most two; none exactly when the file is `SKILL.md` in a kebab-case directory; each starts with `naming: ` |
| SkillValidation.SplitFrontmatter | test/harness/structural.py:48-50 | after a leading `---`, the split has three parts exactly when another `---` follows, and the YAML block is the text between the two |
| SkillValidation.KeyErrors | test/harness/structural.py:59-62 | at most one error for a key, and none exactly when it is present and filled |
| SkillValidation.KeysErrors | test/harness/structural.py:58-63 | no error exactly when every required key is present and filled, and at most one per key |
| SkillValidation.ValidateFrontmatter | test/harness/structural.py:44-63 | the method computes `FrontmatterErrors` |
| SkillValidation.FrontmatterErrorsFacts | test/harness/structural.py:44-63 | one error without a leading `---`; the unclosed-block error when no second `---` follows; for a mapping, at most two errors and none exactly when both keys are filled; one error for a YAML error or a non-mapping; every message starts with `frontmatter: ` |
| SkillValidation.TokenCountWarnings | test/harness/structural.py:66-73 | a warning exactly when the approximate count reaches 500, beginning with `WARN ` |
| SkillValidation.ValidateSkill | test/harness/structural.py:76-102 | a missing file fails at once with a single message, no warnings and count 0; otherwise the messages are split by the `WARN ` prefix, `passed` exactly when there is no error, and the count is the approximate token count |
| SkillValidation.ReportSplit | test/harness/structural.py:95-101 | the errors are the naming and frontmatter messages in order; the warnings are the token messages; a token warning never fails validation |
| Behavioral.SumCosts | test/harness/behavioral.py:134 | the loop adds up every recorded cost once |
| Behavioral.CostLedger.Record | test/harness/behavioral.py:131-135 | the cost is stored under its key, replacing any earlier cost, and every other key keeps its cost; the total is again the sum of the costs and moves by the difference |
| Behavioral.CostLedger.CheckCostCap | test/harness/behavioral.py:65-73 | skip exactly when the total has reached the 0.45-dollar threshold |
| Behavioral.CapStaysReached | test/harness/behavioral.py:65-73 | once the threshold is reached it stays reached while no recorded cost is lowered |
| Behavioral.FullPrompt | test/harness/behavioral.py:94-99 | the prompt unchanged without skill content; otherwise the opening tag, the skill, the closing tag and the prompt, in that order |
| Behavioral.FullPromptInjective | test/harness/behavioral.py:96-97 | for non-empty skills and prompts of the same length, the assembled prompt determines the skill and the prompt |
| Behavioral.Command | test/harness/behavioral.py:101-104 | the command line is `claude -p` followed by the prompt |
| Behavioral.InvokeSkill | test/harness/behavioral.py:92-155 | skip at the cap with the ledger untouched; a timeout, a program that cannot be started (its `OSError`, such as `FileNotFoundError`), or a reply whose fields cannot be read, raises with the ledger untouched; on a failed run or invalid JSON an error result with cost 0 and the ledger untouched; otherwise the parsed fields, with the cost recorded under the test id when there is one |
| Behavioral.Verdict | test/harness/behavioral.py:198 | the verdict is `YES` or `NO` |
| Behavioral.VerdictMeaning | test/harness/behavioral.py:197-198 | `YES` exactly when the first line of the stripped response, stripped again, starts with `yes` in any case |
| Behavioral.ReasonMeaning | test/harness/behavioral.py:197-199 | the reason is the stripped text after the first newline of the stripped response, and empty without one |
| Behavioral.JudgePrompt | test/harness/behavioral.py:174-179 | the judge prompt ends with the content to evaluate |
| Behavioral.JudgeKey | test/harness/behavioral.py:203 | the test id followed by `_judge`, or `judge` without an id |
| Behavioral.JudgeKeyInjective | test/harness/behavioral.py:203 | different test ids get different judge keys |
| Behavioral.LlmJudge | test/harness/behavioral.py:186-227 | a timeout, a program that cannot be started (its `OSError`), or a reply whose fields cannot be read, raises with the ledger untouched; an error verdict with the ledger untouched on a failed run or invalid JSON; otherwise the parsed verdict and reason, with the cost recorded under the judge key (the judge does not check the cap) |
| Behavioral.TraceClock.Stamp | test/harness/behavioral.py:41-44 | the first call for a test stores the current time; every later call returns that stored time; no other test's time changes |
| Converter.MermaidAtFacts | dstoic/skills/convert-md-to-pdf/scripts/converter.py:36 | a match is the opener, the block and the closing fence, and the block holds no fence because the match is lazy |
| Converter.BlocksSound | dstoic/skills/convert-md-to-pdf/scripts/converter.py:36-37 | every block found is fenced in the text at its match, without a fence inside |
| Converter.BlocksComplete | dstoic/skills/convert-md-to-pdf/scripts/converter.py:37 | every position where the pattern matches lies within a found match |
| Converter.MermaidMatches | dstoic/skills/convert-md-to-pdf/scripts/converter.py:37 | the matches are in the text, in order and without overlaps |
| Converter.NoOpenerNoBlocks | dstoic/skills/convert-md-to-pdf/scripts/converter.py:37 | without an opener there are no blocks |
| Converter.ExtractMermaidBlocks | dstoic/skills/convert-md-to-pdf/scripts/converter.py:34-46 | the blocks are the matches of the pattern, and the text has the first occurrence of each fenced block replaced by its indexed placeholder, in block order; without an opener there are no blocks and the markdown comes back unchanged |
| Converter.ReplaceFirstSpec | dstoic/skills/convert-md-to-pdf/scripts/converter.py:41-45 | `replace(..., 1)` leaves a text without the pattern unchanged and otherwise replaces exactly the first occurrence |
| Converter.PlaceholderInjective | dstoic/skills/convert-md-to-pdf/scripts/converter.py:43 | different block indices give different placeholders |
| Converter.RenderDiagrams | dstoic/skills/convert-md-to-pdf/scripts/converter.py:175-184 | one HTML fragment per block, from the renderer's outcome for that block |
| Converter.RenderedInOrder | dstoic/skills/convert-md-to-pdf/scripts/converter.py:175-184 | fragment `k` is the image, error text or missing-renderer note for block `k` |
| Converter.InsertDiagrams | dstoic/skills/convert-md-to-pdf/scripts/converter.py:208-212 | the loop replaces the placeholders in index order |
| Converter.ReinsertStep | dstoic/skills/convert-md-to-pdf/scripts/converter.py:208-212 | round `i` replaces every occurrence of placeholder `i` by the wrapped fragment `i` and nothing else |
| Converter.ReinsertUntouched | dstoic/skills/convert-md-to-pdf/scripts/converter.py:208-212 | HTML without the placeholders comes back unchanged |
| Converter.SubprocessEnv | dstoic/skills/convert-md-to-pdf/scripts/converter.py:75-99 | the two bun-detection variables are gone; the seven temporary-directory variables point to the local directory; puppeteer's cache is under it; every other variable is unchanged |
| TestOrdering.Select | test/conftest.py:21-23 | the comprehension keeps, in order, the items with the marker |
| TestOrdering.Collection.Reorder | test/conftest.py:19-24 | the list is replaced by the structural items, then the unmarked ones, then the behavioral ones |
| TestOrdering.ReorderedGroups | test/conftest.py:21-24 | structural items come first, then items with neither marker, then behavioral items |
| TestOrdering.ReorderedKeepsOrder | test/conftest.py:21-24 | each group keeps the order its items had |
| TestOrdering.ReorderedCount | test/conftest.py:21-24 | an item occurs once for each group it belongs to |
| TestOrdering.ReorderedPermutation | test/conftest.py:21-24 | without items carrying both markers the reorder is a permutation |
| TestOrdering.ReorderedDuplicates | test/conftest.py:21-24 | an item with both markers occurs twice as often afterwards |
| TestOrdering.FailureLog.MakeReport | test/conftest.py:36-41 | a failed call of a structural test appends its node id, and nothing else changes the log |
| TestOrdering.FailuresAfterMeaning | test/conftest.py:36-41 | the log is non-empty exactly when some structural test has failed in its call phase |
| TestOrdering.RunReports | test/conftest.py:36-41 | feeding the reports one by one leaves the failures of those reports in order |
| TestOrdering.FailureLog.Setup | test/conftest.py:44-50 | a behavioral item is skipped exactly when the log is non-empty, and the message starts with the number of failures |

## Left out

- Reading and writing files, the command-line entry points and the
  anonymized-file and audit-log paths are I/O. The texts, path parts and
  file existence are inputs instead.
- The detectors (scrubadub, spaCy, the financial and department regular
  expressions) are library calls. Their entity lists are inputs to
  `Detect.DetectAll` and `Anonymize.AnonymizeFile`.
- Faker, `hashlib.sha256` and `secrets.token_hex` are library calls.
  They are the `Oracle` functions:
  - `fake(n, kind, text)` is the value of the `n`-th Faker draw of one
    anonymizer, and covers every branch of `_pseudonymize` except
    DEPARTMENT. The anonymizer counts these calls in `fakerCalls`, so the
    same text met twice gets two separate draws. A call that in fact draws
    nothing (a financial value without a number, a HEADCOUNT without
    digits) still takes a number, which the oracle may ignore;
  - `digest` stands for the hash;
  - `hex` gives eight hex digits.
- `_generate_financial_variant` and the HEADCOUNT/FINANCIAL_PCT rescaling
  use floating-point random scaling. Their values are covered only through
  the `fake` oracle. The one exception on these paths is modelled: the
  uncaught `float()` of a FINANCIAL_PCT run with several dots or no digit
  (`PctRaises`). `_generate_financial_variant` catches its own
  `ValueError`, and an infinite scaled value there is formatted rather
  than raised. The HEADCOUNT rescaling can raise too; the next line
  says how, and that the model leaves it out.
- Anonymize.Pseudonymize, Anonymize.Anonymizer.ApplyStrategy,
  Anonymize.Anonymizer.MapEntity, Anonymize.Anonymizer.RewriteSorted,
  Anonymize.Anonymizer.AnonymizeText, Anonymize.AnonymizeFile: the
  uncaught exceptions of the HEADCOUNT rescaling
  (`int(int(m) * uniform(0.8, 1.2))`, anonymize.py:170-172) are not
  modelled. These raises are:
  - `ValueError` from `int()` for a `\d+` run longer than 4300
    characters, the default digit limit of current CPython;
  - `OverflowError` when the number is at least 2^1024 - 2^970, the
    smallest integer that does not convert to a float. Any number of
    310 or more significant digits qualifies, and so do 309-digit
    numbers above about 1.797e308;
  - `OverflowError` from `int(inf)` when a smaller number above about
    1.5e308 is scaled past the largest float. Whether this happens
    depends on the random draw.

  The model returns the `fake` value in these cases. Their "raises
  exactly when" clauses therefore hold only for inputs where no
  HEADCOUNT entity that reaches `pseudo` has a number of 309 or more
  digits. This includes `mixed`, where HEADCOUNT's medium severity maps
  to `pseudo`.
- Anonymize.Anonymizer.Tokenize: does not state that different texts get
  different tokens, because the random source can repeat a value.
- Anonymize.AnonymizeFile: states that each mapping records its entity
  (`Records`), but not what its replacement is, because the token cache
  and draw count that describe it are internal to the anonymizer.
  `Anonymize.Anonymizer.AnonymizeText` states it, and the method returns
  the mappings of that call.
- Sorting.SortBy: stability holds by construction (an element goes before
  the first element it may precede), but no lemma states it.
- `Strings.Lower` and `Strings.Upper` change only ASCII letters, since
  Python's Unicode case mapping is not modelled. Whitespace for `strip`
  and `split` is the code-point list of Python's `str.isspace`.
- A digit is an ASCII digit. Python's `\d` in a text pattern also
  matches the other Unicode decimal digits (masking, transcript markers
  and cue numbers).
- Behavioral costs are whole micro-dollars, not floats, so float rounding
  of cost sums is not modelled.
- The YAML and JSON parsers and the `claude` subprocess are oracles passed
  in as functions. The JSON oracle also says whether reading the fields
  raises (a reply that is not an object, a cost that is not a number) and
  which exception it is; the model does not derive that from the JSON text.
- SkillValidation.ValidateNaming: tests the directory with the corrected
  full match, so `SKILL.md` in the directory `skill` followed by a newline
  gets a kebab-case error that `structural.py` does not report.
  `SkillValidation.NamingErrorsFacts`, `SkillValidation.ValidateSkill` and
  `SkillValidation.ReportSplit` state the corrected behaviour too. The
  behaviour as written is `SkillValidation.NamingErrorsAsWritten`; see
  "## Findings".
- `_load_cost_state` with a cost file that parses to an empty mapping
  would raise `KeyError` on `state["tests"]`. The ledger starts from the
  default state instead.
- The trace files of `invoke_skill` and `llm_judge` are YAML dumps to
  disk; only their timestamp cache is modelled.
- The skip message of `check_cost_cap` contains a formatted float, so
  `Behavioral.CostLedger.CheckCostCap` returns only the decision.
- `Structure.EstimatedTokens` reads `int(words * 100 / 75)` as exact
  division. For word counts below 2^50 the floating-point quotient rounds
  to the same whole number.
- `Path(...).suffix` is modelled on the file name only.
- `repr` of a name is modelled as the name in single quotes; Python's
  escaping of quotes and control characters is not modelled.
- `find_mmdc`, `render_mermaid_to_png`, `load_style`, `load_template`,
  markdown rendering and PDF generation are subprocess and file-system
  work. The renderer's outcome for a block is an input to
  `Converter.RenderDiagrams`.
- `pytest_configure`, the no-op `pytest_runtest_logreport` and the
  fixtures in `conftest.py` hold no logic to model.
- `format_result` and `format_report` only format display text.
- The timestamps of the audit log and traces come from the clock. The
  current time is an input to `Behavioral.TraceClock.Stamp`.
- Converter.ReinsertStep: states what each round does to the HTML. It does
  not relate placeholder `i` to the position of block `i` in the rendered
  HTML, because the markdown renderer is not modelled.

## Findings

| source | as written | input that shows it | evidently intended | confidence | as-written member | corrected member |
|---|---|---|---|---|---|---|
| test/harness/structural.py:39 | the kebab-case check uses `re.match` with a `$` anchor, and `$` also matches before a final newline | a directory named `skill` followed by a newline | accept only names that are kebab case in full | not executed; needs a directory name that ends in a newline | SkillValidation.KebabMatchAsWritten, SkillValidation.KebabMatchAsWrittenAcceptsNewline, SkillValidation.NamingErrorsAsWritten, SkillValidation.NamingAsWrittenAcceptsNewline | SkillValidation.KebabMatch, SkillValidation.KebabMatchMeaning, SkillValidation.NamingErrors, SkillValidation.NamingErrorsFacts |
