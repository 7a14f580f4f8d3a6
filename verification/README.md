# A Dafny model of the notes site's content pipeline and shipping example

The repository is a personal study-notes site. It has a Vue front end, a Node build script, and a small Laravel example of dependency injection. This project models the parts of it that hold logic:

- **Text utilities** (`src/utils/textFormatter.js`):
  - `stripMarkdown` turns a markdown document into one line of plain text for previews. It applies global regular-expression replacements in a fixed order, collapses white space and trims.
  - `highlightMatch` entity-escapes a text and wraps every case-insensitive occurrence of the escaped query in a highlight `<span>`.
- **Table-of-contents parser** (`src/utils/markdownParser.js`): `parseMarkdown` cuts the first `<!-- TOC --> … <!-- /TOC -->` block out of a document. The markers may carry any white space and any letter case.
- **Build script** (`markdownCompiler.js`): turns every markdown file into a `{name, content, tocContent}` record. It finds the table of contents by searching for the two plain markers, and writes each record as JSON under the file's name with its extension replaced by `.json`.
- **Search guard** (`src/utils/searchEngine.js`): `initSearch` creates and loads the one MiniSearch instance at most once. `search` asks the engine only once the instance exists and only for a non-empty query. The engine is a parameter of the model.
- **Shipping example** (`learn-di-app`):
  - three carrier services behind one fee interface;
  - their three controllers, each with a fee quote, a service description and an availability check against a weight limit;
  - the provider configuration.

JavaScript and PHP behaviour is written out explicitly:

- `substring` clamps its arguments and swaps them when they are out of order.
- `indexOf` returns -1 when there is no match.
- `path.extname` and `path.basename` follow Node's rules for names without `/`.
- Regular-expression `\s` and `String.prototype.trim` use the same white-space set (`Text.IsSpace`).
- A global `replace` takes the leftmost match, never overlaps matches and resumes after each one (`Replace.ReplaceAll`).
- `[\s\S]*?` and `.*?` are lazy.
- `/i` is case folding.

Files:

| file | contents |
|---|---|
| `text.dfy` | `Wrappers` (Option), `Text` (white space, search, trimming) |
| `replace.dfy` | global replacement |
| `markdown_rules.dfy`, `markdown_rule_facts.dfy` | the regular expressions of `stripMarkdown` |
| `text_formatter.dfy` | `stripMarkdown` |
| `strip_steps.dfy`, `strip_examples.dfy`, `strip_mixed.dfy` | the documented `stripMarkdown` examples |
| `highlight.dfy` | `highlightMatch` and its corrected form |
| `highlight_examples.dfy` | the documented `highlightMatch` examples with special characters, near misses and empty inputs |
| `markdown_parser.dfy`, `parser_examples.dfy` | `parseMarkdown` |
| `markdown_compiler.dfy`, `compiler_facts.dfy` | the build script |
| `search_engine.dfy` | the search guard |
| `logistics.dfy`, `shipping_config.dfy`, `shipping_controllers.dfy` | the shipping example |

## Model

| member | source | states |
|---|---|---|
| TextFormatter.StripMarkdown | src/utils/textFormatter.js:6-33 | An absent or empty document gives the empty text. Otherwise the result is trimmed, has no line terminators, and separates words by single plain spaces. |
| TextFormatter.PlainTextStrip | src/utils/textFormatter.js:11-30 | On text without any character a markup pattern can start with, stripping only collapses white-space runs to one space and trims. |
| TextFormatter.NewlineInvisible | src/utils/textFormatter.js:27-30 | Replacing line feeds by spaces before the white-space collapse changes nothing. |
| TextFormatter.CollapseRespectsSpacing | src/utils/textFormatter.js:30 | The collapse depends only on where white space is, not on which white-space characters are there. |
| TextFormatter.CollapseSpacing | src/utils/textFormatter.js:30 | After the collapse, every white-space character is a plain space and no two spaces are adjacent. A leading non-space character is kept. |
| TextFormatter.CollapsedLine | src/utils/textFormatter.js:30 | Collapse then trim gives one line: no outer space, no line terminator, single plain spaces. |
| Replace.ReplaceAllSkip | src/utils/textFormatter.js:11-30 | A global replace passes unchanged over a prefix where no match starts. |
| Replace.ReplaceAllStep | src/utils/textFormatter.js:11-30 | A global replace substitutes a match at the front and resumes right after it. |
| MarkdownRules.CodeBlockAt | src/utils/textFormatter.js:11 | A code-block match starts and ends with three backticks, spans at least six characters and is replaced by a space. |
| MarkdownRules.CodeBlockShortest | src/utils/textFormatter.js:11 | The code-block pattern is lazy: no fence occurs strictly inside a match. |
| MarkdownRules.LinkAt | src/utils/textFormatter.js:14 | A link match is `[text](url)` with a non-empty text without `]` and a non-empty url without `)`. It is replaced by the text. |
| MarkdownRules.HtmlTagAt | src/utils/textFormatter.js:17 | A tag match is `<`, one or more characters other than `>`, then `>`. It is replaced by a space. |
| MarkdownRules.LazyStretchShortest | src/utils/textFormatter.js:20-21 | The lazy one-line stretch ends at the first delimiter. There is none only when no one-line stretch is followed by the delimiter. |
| MarkdownRules.DelimitedShortest | src/utils/textFormatter.js:20-21 | The closing emphasis delimiter is the first occurrence after the opening one. |
| MarkdownRules.PairAt | src/utils/textFormatter.js:20-21 | A strong or emphasis match starts with one of the two alternatives of the group. |
| MarkdownRules.HeadingAt | src/utils/textFormatter.js:24 | A heading match is a maximal run of `#` followed by one white-space character. It is replaced by a space. |
| MarkdownRules.WhitespaceAt | src/utils/textFormatter.js:30 | A match exists exactly when the text starts with white space. It spans the whole run and is replaced by one space. |
| MarkdownRules.Pattern | src/utils/textFormatter.js:11-30 | Every pattern consumes at least one character and can only start at its trigger characters. |
| MarkdownRules.ReplaceAllIdentity | src/utils/textFormatter.js:11-30 | A replacement leaves unchanged a text in which its pattern cannot start. |
| StripExamples.HeadingExample | tests/unit/utils/textFormatter.spec.js:6-9 | Three headings of levels one to three give their titles separated by single spaces. |
| StripMixedExample.MixedExample | tests/unit/utils/textFormatter.spec.js:36-39 | Heading, strong text, link and code block together give the documented one-line text. |
| Highlight.EscapeHtml | src/utils/textFormatter.js:44-52 | The escaped text has no raw `<`, `>`, `"` or `'`, is at least as long as the input, and equals the input when there is nothing to escape. |
| Highlight.EscapeAppend | src/utils/textFormatter.js:44-52 | Escaping distributes over concatenation. |
| Highlight.RenderedEscape | src/utils/textFormatter.js:44-52 | The escaped text renders back to the original text, whatever follows it. |
| Highlight.HighlightMatch | src/utils/textFormatter.js:42-71 | An absent or empty query gives the escaped text. Removing the highlight tags always gives back the escaped text. Every raw markup character of the result belongs to a highlight tag. |
| Highlight.EscapedTextRendered | src/utils/textFormatter.js:54 | Without a query the page shows exactly the original text. |
| Highlight.WrapRemoveTags | src/utils/textFormatter.js:70 | Wrapping occurrences only inserts tags: removing them gives back the text. |
| Highlight.WrapMarkupOnlyInTags | src/utils/textFormatter.js:70 | Wrapping a text free of raw markup adds markup only inside the tags. |
| Highlight.WrapNone | src/utils/textFormatter.js:67-70 | Where the query occurs nowhere, the text is unchanged. |
| Highlight.WrapFirst | src/utils/textFormatter.js:67-70 | The leftmost occurrence is wrapped first and the scan resumes right after it. |
| Highlight.PlainHighlight | src/utils/textFormatter.js:54-70 | When neither text nor query has special characters, highlighting is wrapping the raw text. |
| Highlight.TwoMatches | src/utils/textFormatter.js:67-70 | Two occurrences separated by text where the query cannot start are both wrapped, each keeping the text's own spelling. |
| Highlight.WrapPass | src/utils/textFormatter.js:67-70 | A stretch in which no occurrence of the query can start passes through unchanged, and the scan resumes right after it. |
| Highlight.WrapOne | src/utils/textFormatter.js:67-70 | One occurrence between two such stretches is wrapped, and nothing else changes. |
| Highlight.EscapedOneMatch | src/utils/textFormatter.js:42-70 | A query that occurs once is found as the escaped query in the escaped text: the escaped occurrence is wrapped and the text around it comes out escaped. |
| Highlight.EscapedTwoMatches | src/utils/textFormatter.js:42-70 | The same for two occurrences after a stretch where the query cannot start. |
| HighlightExamples.EmptyTextExample | tests/unit/utils/textFormatter.spec.js:82-86 | An empty text gives an empty result. |
| HighlightExamples.EmptyQueryExample | tests/unit/utils/textFormatter.spec.js:76-80 | An empty query returns the text unchanged. |
| HighlightExamples.DottedQueryExample | tests/unit/utils/textFormatter.spec.js:88-92 | A `.` in the query matches only a `.`. |
| HighlightExamples.RepeatedKeywordExample | tests/unit/utils/textFormatter.spec.js:64-68 | Both occurrences of the keyword are wrapped, and a near miss that differs only in its last character is not. |
| HighlightExamples.NearMissNoStart | src/utils/textFormatter.js:67-70 | The query cannot start inside its own text with the last character changed, when its first character does not recur there. |
| HighlightExamples.ScriptTagQuery | src/utils/textFormatter.js:42-70 | A query inside an opening and a closing tag is wrapped twice, and the brackets and quotes around it come out as entities outside the highlight. |
| HighlightExamples.ScriptTagExample | tests/unit/utils/textFormatter.spec.js:51-56 | The documented script tag comes out escaped, with `script` highlighted in both tags. |
| HighlightExamples.AmpersandQuery | src/utils/textFormatter.js:42-70 | In a sentence with an `&`, two double quotes and two single quotes, the query `&` highlights only the `&amp;`. |
| HighlightExamples.DoubleQuoteQuery | src/utils/textFormatter.js:42-70 | A double-quoted query highlights the quoted stretch, both `&quot;` entities included. |
| HighlightExamples.SingleQuoteQuery | src/utils/textFormatter.js:42-70 | A single-quoted query highlights the quoted stretch, both `&apos;` entities included. |
| HighlightExamples.SpecialCharacterExample | tests/unit/utils/textFormatter.spec.js:101-114 | The documented sentence gives the documented result for each of its three queries. |
| Highlight.EscapeExample | tests/unit/utils/textFormatter.spec.js:94-99 | All five special characters become their entities. |
| Highlight.KeywordExample | tests/unit/utils/textFormatter.spec.js:58-62 | A single keyword in running text is wrapped. |
| Highlight.CaseInsensitiveExample | tests/unit/utils/textFormatter.spec.js:70-74 | Occurrences differing in letter case from the query are all wrapped. |
| Highlight.HighlightCutsEntity | src/utils/textFormatter.js:58-70 | The query `lt` is found inside the entity `&lt;`, and the page then shows `&lt;` instead of `<`. |
| Highlight.HighlightVisible | src/utils/textFormatter.js:42-71 | With matching against the text as shown, the page shows exactly the text, removing the tags gives the escaped text, and markup occurs only in tags. |
| Highlight.WrapEscapedRendered | src/utils/textFormatter.js:67-70 | The corrected wrapping renders as the original text for every query. |
| Highlight.HighlightVisibleAgrees | src/utils/textFormatter.js:42-71 | When neither text nor query has special characters, the corrected and the original highlighting agree. |
| Highlight.HighlightVisibleKeepsEntity | src/utils/textFormatter.js:58-70 | With the corrected matching, the query `lt` leaves `&lt;` whole. |
| MarkdownParser.MarkerLen | src/utils/markdownParser.js:8 | A recognised marker spans at least the fixed characters of the pattern and lies within the text. |
| MarkdownParser.MarkerLenAt | src/utils/markdownParser.js:8 | The opening, a white-space run, the word up to case, a white-space run and the closing together are recognised with exactly their length. |
| MarkdownParser.MarkerShape | src/utils/markdownParser.js:8 | Conversely, every recognised marker consists of those pieces. |
| MarkdownParser.MarkerAccepts | src/utils/markdownParser.js:8 | Any white space, including none, around the word and any letter case make a marker. |
| MarkdownParser.MarkerExtends | src/utils/markdownParser.js:8 | Recognition of a marker does not depend on what follows it. |
| MarkdownParser.FirstMatchLeftmost | src/utils/markdownParser.js:9 | The scan reports the leftmost place where the pattern matches, and nothing only when it matches nowhere. |
| MarkdownParser.FirstMatchAt | src/utils/markdownParser.js:9 | Conversely, the leftmost matching place is what the scan reports. |
| MarkdownParser.FindBlockSpec | src/utils/markdownParser.js:8-9 | The block found is exactly the leftmost opening marker followed by the first closing marker after it, and nothing is found when there is no such pair. |
| MarkdownParser.BlockUnique | src/utils/markdownParser.js:8-9 | There is at most one such block. |
| MarkdownParser.ParseMarkdown | src/utils/markdownParser.js:6-18 | Without a block the document comes back untouched with an empty table of contents. When a block is found, even with an empty body, the table of contents and the content are both trimmed. |
| MarkdownParser.ParseMarkdownSpec | src/utils/markdownParser.js:6-18 | Without a block the document comes back untouched with an empty table of contents. With a block, the table of contents is its trimmed body and the content is the trimmed text around it. |
| MarkdownParser.ParseFound | src/utils/markdownParser.js:11-15 | A found block yields the split around it. |
| ParserExamples.NoAngleNoBlock | src/utils/markdownParser.js:17 | A document without `<` comes back unchanged with an empty table of contents. |
| ParserExamples.ParseBlock | src/utils/markdownParser.js:11-15 | One block after text without `<`: the table of contents is its trimmed body, and the content is the trimmed text around it. What follows the block is kept whole. |
| ParserExamples.LooseMarker | src/utils/markdownParser.js:8 | A lower-case marker word and a line break inside the marker are accepted. |
| ParserExamples.TitleExample | tests/unit/utils/markdownParser.spec.js:5-21 | The first documented document gives the title and subtitle as content and the two links as table of contents. |
| ParserExamples.SpacedExample | tests/unit/utils/markdownParser.spec.js:23-35 | Markers with extra white space are recognised. |
| ParserExamples.JustContentExample | tests/unit/utils/markdownParser.spec.js:37-42 | A document without markers is returned as it is. |
| MarkdownCompiler.IndexOf | markdownCompiler.js:37-38 | The result is -1 exactly when the marker occurs nowhere. Otherwise it is the leftmost occurrence. |
| MarkdownCompiler.Substring | markdownCompiler.js:41-46 | Within the text, the slice between the two indices is taken in increasing order. |
| MarkdownCompiler.SubstringFrom | markdownCompiler.js:46 | The rest of the text from an index, everything for a negative index, and nothing past the end. |
| MarkdownCompiler.CompileFile | markdownCompiler.js:31-47 | The record keeps the file name, and its table of contents is trimmed. Without both markers, the content is the whole file and the table of contents is empty. |
| MarkdownCompiler.CompileFileFixed | markdownCompiler.js:31-47 | The same guarantees for the corrected offsets. |
| MarkdownCompiler.Extname | markdownCompiler.js:50 | The extension is a suffix of the name that is empty or starts with its only dot. A non-empty name is longer than its extension. |
| MarkdownCompiler.Stem | markdownCompiler.js:50 | The stem followed by the extension is the name, and a non-empty name has a non-empty stem. |
| MarkdownCompiler.CompileAll | markdownCompiler.js:27-50 | Each file of the listing, in order, gives its JSON name and the record the program writes for it, with the offsets as written. |
| MarkdownCompiler.CompileAllFixed | markdownCompiler.js:27-50 | The same run with the corrected offsets. |
| CompilerFacts.AdjacentMarkersRun | markdownCompiler.js:27-50 | The run over a listing of the file made of the two markers alone writes `x.json` with content `>` and table of contents `<`. |
| CompilerFacts.RunsAgreeWithoutBlocks | markdownCompiler.js:31-47 | When no file holds both markers, the run as written and the corrected run write the same files. |
| CompilerFacts.MarkersFound | markdownCompiler.js:37-38 | In a document with one block and no `<` before the closing marker other than the opening marker's, both searches find the block's markers. |
| CompilerFacts.CompileAsWritten | markdownCompiler.js:40-47 | As written, for any document whose first markers bound a non-empty body, the body's first character stays out of the table of contents, and the content keeps the closing marker's `>`. |
| CompilerFacts.CompileEmptyBlock | markdownCompiler.js:40-47 | As written, for any document whose first markers are side by side, the table of contents is `<` and the content keeps a `>`. |
| CompilerFacts.AdjacentMarkers | markdownCompiler.js:37-46 | The file made of the two markers alone gives content `>` and table of contents `<`. |
| CompilerFacts.CompileFixedBlock | markdownCompiler.js:40-47 | With the corrected offsets, for any document whose first markers bound the block, the content is the text around the block and the table of contents is the trimmed body. |
| CompilerFacts.FixedAgreesWithParser | markdownCompiler.js:40-47 | With the corrected offsets, the table of contents equals the parser's, and the trimmed content equals the parser's content. |
| CompilerFacts.TitleCompiled | tests/unit/scripts/markdownCompiler.spec.js:11-46 | As written, the documented file gives the documented table of contents, and its content has no marker but keeps a stray `>`. |
| CompilerFacts.TitleCompiledFixed | tests/unit/scripts/markdownCompiler.spec.js:11-46 | With the corrected offsets, the documented file gives the documented table of contents and the text around the block. |
| CompilerFacts.JustContentCompiled | tests/unit/scripts/markdownCompiler.spec.js:48-64 | A file without markers keeps its content, and its table of contents is empty. |
| CompilerFacts.NoAngleCompiled | markdownCompiler.js:31-40 | A file without `<` has neither marker: its record holds the whole file and an empty table of contents. |
| CompilerFacts.JsonNameOf | markdownCompiler.js:50 | A name `base.ext` has the extension `.ext` and the JSON name `base.json`. |
| CompilerFacts.JsonNameWithoutExtension | markdownCompiler.js:50 | A name without a dot gets `.json` appended. |
| CompilerFacts.ExampleNames | tests/unit/scripts/markdownCompiler.spec.js:11-64 | `test.md` and `no-toc.md` give `test.json` and `no-toc.json`. |
| SearchEngine.InitSearch | src/utils/searchEngine.js:7-30 | The module is initialized afterwards, even when loading fails. An existing instance is kept and nothing is called. Otherwise one instance with the fixed options is built and loaded with the bundled data. |
| SearchEngine.Search | src/utils/searchEngine.js:33-42 | The engine is asked exactly when the module is initialized and the query is non-empty, and its answer is returned. Otherwise the result is empty. |
| SearchEngine.InitIdempotent | src/utils/searchEngine.js:8-10 | A second initialization changes nothing and calls nothing. |
| SearchEngine.FailedLoadStays | src/utils/searchEngine.js:23-29 | A failed load leaves the instance in place, and the load is never retried. |
| SearchEngine.ConfiguredFields | src/utils/searchEngine.js:12-21 | The indexed and the stored fields, and the title has the highest boost. |
| SearchEngine.ConstructedAtMostOnce | src/utils/searchEngine.js:4-30 | Over any sequence of operations, the engine is constructed once if initialization ever ran and never otherwise. The module is initialized exactly when initialization ran. |
| SearchEngine.SearchesOnly | src/utils/searchEngine.js:33-42 | Searches never change the state, and each is answered from the same instance. |
| Logistics.BlackCatRule | learn-di-app/Services/BlackCat.php:16-19 | 100 for no weight, 10 more per kilogram, and no validation: -10 kilograms cost 0. |
| Logistics.HsinchuRule | learn-di-app/Services/Hsinchu.php:16-19 | 80 for no weight and 15 more per kilogram. |
| Logistics.PostOfficeRule | learn-di-app/Services/PostOffice.php:16-19 | 70 for no weight and 20 more per kilogram. |
| Logistics.Step | learn-di-app/Services/LogisticsInterface.php:16 | Each implementation of the interface adds a fixed amount for every extra kilogram. |
| Logistics.FeeIncreasing | learn-di-app/Services/LogisticsInterface.php:16 | Every carrier's fee strictly increases with the weight, by the step for each extra kilogram. |
| Logistics.HsinchuVsBlackCat | learn-di-app/Services/Hsinchu.php:18 | Hsinchu is cheaper than Black Cat below 4 kilograms, equal at 4 and dearer above. |
| Logistics.PostOfficeCrossovers | learn-di-app/Services/PostOffice.php:18 | The post office ties with Hsinchu at 2 and with Black Cat at 3 kilograms, and is cheaper exactly below those weights. |
| Logistics.Cheapest | learn-di-app/Services/LogisticsInterface.php:16 | The carrier chosen for a weight charges no more than any other. |
| ShippingConfig.DefaultProvider | learn-di-app/config/shipping.php:14 | Without the environment variable the provider is `black_cat`, which is in the table. With it, the provider is the variable's value as given. |
| ShippingConfig.ProviderKeys | learn-di-app/config/shipping.php:25-46 | The table has exactly the keys `black_cat`, `hsinchu` and `post_office`. |
| ShippingConfig.OverrideUnchecked | learn-di-app/config/shipping.php:14 | An overriding value is not checked against the table. |
| ShippingConfig.TableMatchesServices | learn-di-app/config/shipping.php:25-46 | Each row's base fee and rate reproduce its carrier's fee for every weight, and each carrier has one row. |
| ShippingControllers.RequestWeight | learn-di-app/Http/Controllers/BlackCatController.php:21 | The request's weight, or 1 when it has none. |
| ShippingControllers.CalculateFeeAction | learn-di-app/Http/Controllers/BlackCatController.php:19-35 | The quoted fee is the base fee plus the weight times the rate reported beside it, under the provider name from the configuration. |
| ShippingControllers.GetServiceInfo | learn-di-app/Http/Controllers/BlackCatController.php:42-53 | The name, base fee and rate are the carrier's configuration row. |
| ShippingControllers.CheckAvailability | learn-di-app/Http/Controllers/BlackCatController.php:61-82 | Available exactly when the weight does not exceed the maximum. The maximum is the controller's constant. The estimate and message follow the outcome. |
| ShippingControllers.KeyOf | learn-di-app/config/shipping.php:25-46 | Every carrier has a row in the table, and the row names that carrier. |
| ShippingControllers.DefaultWeightQuotes | learn-di-app/Http/Controllers/BlackCatController.php:21-34 | Without a weight the quotes are for 1 kilogram: 110, 95 and 90. |
| ShippingControllers.FeeIgnoresLimit | learn-di-app/Http/Controllers/BlackCatController.php:19-35 | The fee action quotes weights that the availability check refuses. |
| ShippingControllers.Limits | learn-di-app/Http/Controllers/BlackCatController.php:69-72 | The limits are 50, 30 and 20 kilograms inclusive, and the default weight is accepted. |
| ShippingControllers.MaxWeightConstant | learn-di-app/Http/Controllers/BlackCatController.php:79 | The reported maximum does not depend on the request. |
| ShippingControllers.InfoAgreesWithFee | learn-di-app/Http/Controllers/BlackCatController.php:42-53 | The description and the fee response report the same constants, which are the service's fee at 0 and its step. |

The three controllers differ only in their constants. Each controller row cites `BlackCatController.php`; the same lines of `HsinchuController.php` and `PostOfficeController.php` are modelled by the same members through `ProfileOf`.

## Left out

- File-system and console I/O are not modelled: `fs.existsSync`, `mkdirSync`, `readdir` and its error, `readFileSync`, the asynchronous `writeFile`, and the log messages. The build script is modelled as a function from a directory listing (names and contents) to the `(json name, record)` pairs it writes. The order in which the writes complete is not modelled.
- `JSON.stringify` is not modelled: the record is a datatype.
- `path.join` is not modelled, and neither are names containing `/`, since the names come from one directory listing.
- MiniSearch is not modelled: its index, ranking, fuzzy and prefix matching are a parameter (`engine`). Loading failure is a boolean. The console messages are left out.
- `search` with `null` or `undefined` is not modelled: only strings are, and `""` is the empty query.
- `stripMarkdown` and `highlightMatch` with non-string arguments are not modelled, except for an absent value (`None`).
- Highlight.HighlightMatch: letter case is folded for ASCII letters only. JavaScript's `/i` also folds other cased letters, which the model does not. The queries of the documented examples are unaffected.
- Highlight.Rendered: the decoder knows only the five entities the escaping produces and the highlight tags. It is a model of what the page shows for the markup this code generates, not of HTML in general.
- JavaScript strings are sequences of UTF-16 code units, while Dafny's `char` is a Unicode scalar value. For characters outside the Basic Multilingual Plane, the indices of `indexOf` and `substring` therefore differ by the surrogate pairs.
- MarkdownCompiler.SubstringSymmetric is proved without any proof steps. It is kept as the statement that the order of `substring`'s arguments does not matter.
- The script's entry point (`require.main`) and the fixed directory paths are not modelled.
- PHP request handling is not modelled:
  - Laravel's `env()` converts the strings `"true"`, `"false"`, `"null"` and `"empty"`; here the variable is a string or absent.
  - `$request->input` returns strings that PHP coerces in arithmetic and comparison; weights here are integers.
  - Integer overflow to float is not modelled.
  - The JSON response wrapper is not modelled.
  - The service class name that `get_class` reports is a constant of the profile.
- The route table, the empty `ShippingServiceProvider`, the Vue components, the router and the `makeDirectory.js` helper are outside the modelled core.

## Findings

| source | as written | input that shows it | evidently intended | confidence | as-written member | corrected member |
|---|---|---|---|---|---|---|
| markdownCompiler.js:42-46 | The table of contents starts 13 characters after the 12-character opening marker. The content resumes 12 characters after the 13-character closing marker. | The file `<!-- TOC --><!-- /TOC -->` gives content `>` and table of contents `<`. Any block's first body character is lost and a `>` stays in the content. | Skip exactly the opening marker (12) and the closing marker (13). | not executed | CompilerFacts.AdjacentMarkers | MarkdownCompiler.CompileFileFixed |
| src/utils/textFormatter.js:67-70 | The query is matched against the already escaped text, so it can match inside an entity. | The text `<` with the query `lt` gives `&<span class="search-highlight">lt</span>;`, which the page shows as `&lt;`. | Match against the text as the reader sees it, so that an entity is never cut. | not executed | Highlight.HighlightCutsEntity | Highlight.HighlightVisible |

`MarkdownCompiler.CompileFile` and `MarkdownCompiler.CompileAll` keep the offsets as written. `CompilerFacts.CompileAsWritten` and `CompilerFacts.CompileEmptyBlock` state their effect on every document whose first two markers bound a block, whatever other markup it holds. `CompilerFacts.AdjacentMarkersRun` shows the effect on a whole run. `MarkdownCompiler.CompileFileFixed` and `MarkdownCompiler.CompileAllFixed` are the corrected versions. `CompilerFacts.FixedAgreesWithParser` relates the corrected version to `parseMarkdown`.
