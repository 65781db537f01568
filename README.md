# paracrawl-dashboard core, modelled in Dafny

This project models the self-contained logic of the paracrawl dashboard tools.
The tools are small web front ends for a corpus-building pipeline. The model
covers six source files, one Dafny module each:

- `Web` (web.py). The URL router. It covers the `any`, `path`, `str` and `int`
  converters and compiles a route pattern into a path expression and a path
  format. Dispatch is first match in registration order. `url_for` does
  reverse routing: it chooses the route with the most placeholders, skips
  `None` arguments and puts leftover arguments in the query.
- `Templates` (template.py). The template compiler. It is a loop over tags
  with an explicit stack of open `if`/`for` blocks. The renderer goes
  recursively over `Node`, `Raw`, `Expression`, `IfNode` and `ForNode`.
- `Htl` (htl.py). The HTML element serialiser, with its escaping rules.
- `Bleualign` (bleualign.py). The chunked newline-offset indexer, the
  tab-separated line indexer and `ltrim`. It also covers the non-storing
  `lazydict`, the aligned-file name derivation and the reverse index from
  URL pairs to offsets.
- `Dashboard` (dashboard.py). Job classification by name and the
  language-directory name check. It parses the captured queue listing, job
  details and collection list, and buckets jobs into the
  language × collection grid.
- `Warc2text` (warc2text.py). The `Page`/`Pagination` slicing, the size of a
  `Language`, and the totals and ordering in `output_index`.

`Base` holds the shared vocabulary: `Option` and `Result`, which stand in for
`None` and raised exceptions, and the `str` operations the other modules use
(`find`, `count`, `split`, `strip`).

Where the source calls something the model cannot see, that thing becomes a
parameter:

- `quote_plus` and `unquote_plus` come in as a `UrlCodec` of functions.
- Python's `eval` comes in as an `Evaluator` of functions of the environment. Each may answer `None`, which stands for the exception `eval` raises.
- `os.path.exists` is a predicate.
- `urlparse(...).netloc` is a function.
- Directory listings and command output are given as values.

Route patterns and templates are given already split into literal text and
placeholders or tags. The regular expressions that split them are therefore
not modelled. Matching a path against a compiled route is modelled as a
backtracking search. For each placeholder it tries the capture lengths in the
order Python's regex engine tries them: longest first for `\d+`, `[^/]+` and `.*`, option order for `any` (`Candidates`), the first that lets the rest match winning (`TryCapturesFirst`). `MatchSound` and `MatchComplete`
prove that this search agrees with a declarative reading of the pattern.

## Model

| member | source | states |
|---|---|---|
| `Web.MakeConverter` | web.py:172-177 | `any` builds an `AnyConverter` whose options are its arguments. `path`, `str` and `int` build `PathConverter`, `StrConverter` and `IntConverter`. Given arguments, these three raise `ConverterTakesNoArguments` (a `TypeError`). Any other type name is an unknown converter (a `KeyError`). |
| `Web.ToStr` | web.py:109-157 | `any` succeeds exactly for one of its options, giving `quote_plus` of it, and otherwise raises `NotAnOption` (`ValueError`). `int` formats an int in decimal. A str value goes through `int()` (`ParseInt`) first and raises `NotAnInteger` when `int()` rejects it. `str` and `path` quote `str(val)`. |
| `Web.ToPython` | web.py:113-154 | `any` succeeds exactly for one of its options, giving `unquote_plus` of the capture, and otherwise raises `UnmatchedOption` (`RuntimeError`). `str` and `path` unquote. `int` reads a digit string as its decimal value. |
| `Web.ToPythonAsWritten` | web.py:113-114 | Agrees with `ToPython` on every converter except `path`, whose `to_python` as written passes `safe='/'` to `unquote_plus`. |
| `Web.PathCaptureRaisesAsWritten` | web.py:113-114 | Every capture of a `<path:...>` placeholder raises as written. With the keyword removed, it unquotes. |
| `Web.ParseInt` | web.py:153-157 | `int(s)` succeeds exactly when `s`, stripped of whitespace, is an optional sign followed by digits, with single underscores allowed between digits. Anything else raises `NotAnInteger` (`ValueError`). A plain digit string reads as its decimal value. |
| `Web.ParseShowInt` | web.py:153-157 | `int(str(n)) == n` for every integer, negative ones included. |
| `Web.ParseIntIgnoresPadding` | web.py:156-157 | Whitespace around the number does not change what `int()` returns. |
| `Web.ParseIntPaddedExample` | web.py:156-157 | `int(" 4") == 4`: whitespace around a string argument does not change the integer it stands for. |
| `Web.ParseIntUnderscoreExample` | web.py:156-157 | `int("1_0") == 10`. |
| `Web.ParseIntSignedExample` | web.py:153-157 | `int("-0_7") == -7`. |
| `Web.ParseIntRejects` | web.py:153-157 | `int()` raises on `"1__0"`, `"_1"` and `"4 2"`. |
| `Web.IntConverterRoundTrip` | web.py:149-157 | For n ≥ 0, `to_str(n)` is digits only, the `\d+` pattern accepts it, and `to_python(to_str(n)) == n`. |
| `Web.Candidates` | web.py:110-151 | The capture lengths tried for a placeholder are exactly the prefixes that the converter's pattern (`\d+`, `[^/]+`, `.*`, the options) accepts. For `\d+`, `[^/]+` and `.*` they come longest first, as greedy repetition backtracks. For `any` they are the lengths of the matching options, in option order, as alternation tries them. |
| `Web.TryCapturesFirst` | web.py:216 | A match takes the first candidate length, in order, whose rest of the pattern matches, with the captures of that rest. There is no match exactly when no candidate lets the rest match. |
| `Web.CompileRoute` | web.py:192-212 | Compiles one segment per pattern part, in order, keeping literal text verbatim. The path format is the pattern with each placeholder replaced by `{name}`. An unknown converter, arguments given to a converter that takes none, or a repeated placeholder name is an error. |
| `Web.FormatFill` | web.py:202-206 | For literal text without braces, formatting the path format with arguments gives the path that the route's expression spells out with those arguments as captures. |
| `Web.Match` | web.py:209-216 | An anchored match of a route's expression captures exactly the route's placeholders, no more and no fewer. |
| `Web.MatchSound` | web.py:209-216 | When the anchored expression matches, the captures cover exactly the placeholders, and each is accepted by its converter's pattern. Filling them back in gives the path, or the path minus the final newline that `$` allows. |
| `Web.MatchComplete` | web.py:209-217 | Whenever some captures accepted by the converters spell out the path, the match succeeds. |
| `Web.ConvertCaptures` | web.py:218 | Converts every capture through its converter's `to_python` and fails exactly when some conversion fails. The keys are the route's placeholders. |
| `Web.ConvertFailsOnlyOnEmptyAny` | web.py:216-218 | After a successful match, conversion can fail only for an `any` placeholder without options. |
| `Web.Dispatch` | web.py:216-218 | After the route's expression matches, dispatch returns that route with one converted value per placeholder. It fails only when an `any` placeholder without options is captured. |
| `Web.ConvertArgs` | web.py:225 | Converts every placeholder argument through its converter's `to_str` and fails exactly when some conversion fails. The keys are the route's placeholders. |
| `Web.StrFormat` | web.py:225 | `str.format` with only plain `{name}` fields, `{{` and `}}`: a format string without braces comes back unchanged, and every failure is `BadFormat`. |
| `Web.QuerySplitsArguments` | web.py:222-226 | It follows directly from the definitions of `Supplied` and `QueryOf`. For a chosen route, the query's names and the route's placeholders are disjoint, and together they are exactly the supplied arguments. So `c` in `url_for("test_route_1", a=4, b=6, c=8)` (test.py:29) goes to the query. |
| `Web.LinkFor` | web.py:225-227 | The link's query is `QueryOf`. Building the link succeeds exactly when every placeholder converts through its `to_str` and the path format formats. The path is the path format formatted with those converted values. |
| `Web.LinkPathFills` | web.py:225-227 | For a compiled route whose literal text holds no braces, `url_for`'s path is the route's expression spelled out with each placeholder's `to_str` value, so formatting never fails there. |
| `Web.NoneArgumentsIgnored` | web.py:222-227 | Dropping the `None` arguments changes neither the supplied set nor the link. |
| `Web.ChoiceUnique` | web.py:223-224 | It follows directly from the definition of `IsChoice`, and it makes `UrlFor`'s ensures name one link. At most one route is the choice: it qualifies, it has the most placeholders among those that qualify, and it is the earliest registered among those that tie. |
| `Web.ChoiceExists` | web.py:223-227 | When some route of that name has all its placeholders supplied, a choice exists, so `url_for` does not return `None`. |
| `Web.Application.constructor` | web.py:171-179 | A new application has no routes. |
| `Web.Application.Route` | web.py:181-190 | Registering appends exactly one route and changes nothing else. The route's expression has one segment per pattern part, each being the compiled part (as `CompileRoute` compiles it). Its names are distinct and its path format is the pattern's. The name defaults to the function's name when none (or an empty one) is given. A pattern that does not compile registers nothing. |
| `Web.Application.MatchRoute` | web.py:214-219 | Returns the first route in registration order whose expression matches the whole path, with its converted captures. Returns `None` when no route matches. |
| `Web.Application.UrlFor` | web.py:221-227 | Returns the link of the unique route chosen by `IsChoice`, whose path `LinkFor` describes. Returns `None` when no route of that name has all its placeholders supplied. |
| `Templates.Compile` | template.py:132-184 | Succeeds exactly when the tags nest (`Nesting` ends with no open block). Otherwise it fails with the first nesting error, or `Unclosed` when blocks remain open. On success the tree unparses to the template's own token stream. That stream is the Raw text before each tag, the tags in order (`else` as `elif True`) and the trailing text. A template without tags compiles to exactly `Block([Raw(text)])`. |
| `Templates.HandleTag` | template.py:145-176 | One tag moves the stack exactly as `Step` moves the open block kinds and adds that tag's token, or fails with `Step`'s error. |
| `Templates.HandleCase` | template.py:150-156 | `elif` and `else` add a case to an innermost `IfNode` (`else` with condition `"True"`). When the innermost block is not an `IfNode`, they are rejected. |
| `Templates.HandleEnd` | template.py:158-170 | `endif` pops an innermost `IfNode` and `endfor` an innermost `ForNode` into its parent. Any other innermost block is rejected. |
| `Templates.NestingErrPersists` | template.py:136-181 | Once a prefix of the tags fails to nest, the whole template fails with that same error. |
| `Templates.AddCase` | template.py:88-90 | `add_case` appends a new empty case after the existing ones, which stands for an `elif` token. |
| `Templates.Append` | template.py:33-34 | Appending a child keeps the kind of the open block. |
| `Templates.AppendToLastCase` | template.py:92-93 | Content inside an `if` goes to the most recently added case only. The earlier cases and the last case's condition are unchanged. |
| `Templates.AppendTokens` | template.py:92-93 | An appended child's tokens follow the open block's tokens. |
| `Templates.Bind` | template.py:105-111 | Every stripped loop variable is bound, and there are at most as many names as variables. |
| `Templates.BindKeys` | template.py:105-111 | The bound names are exactly the stripped loop variables, so nothing else is bound to shadow an outer name. |
| `Templates.BindLastWins` | template.py:105-111 | A loop variable that is not repeated later is bound to its own value. |
| `Templates.Format` | template.py:36-129 | Rendering fails where `eval` raises (an expression, a condition or a loop's iterable, reported as `EvalError` of that text) or where a loop's item does not unpack. A tree with no `ForNode` fails only with `EvalError`. |
| `Templates.FormatSeq` | template.py:36-37 | Children without loops fail to render only where `eval` raises. |
| `Templates.FormatCases` | template.py:95-99 | An `IfNode` whose case bodies hold no loop fails to render only where `eval` raises. |
| `Templates.FormatLoop` | template.py:125-129 | For a body without nested loops: when every item unpacks into as many values as there are loop variables, the loop fails only where `eval` raises. Any other failure is the unpacking mismatch of one of the items. |
| `Templates.FormatSeqAppend` | template.py:36-37 | Rendering children is in-order concatenation: the rendering of `a + b` is the rendering of `a` followed by that of `b`. |
| `Templates.FirstCaseRendered` | template.py:95-99 | An `IfNode` renders the body of the first case whose condition is true when all before it are false, and `""` when all are false. A condition whose `eval` raises, after only false ones, stops the render with that condition's `EvalError`. |
| `Templates.LoopRendersEachIteration` | template.py:125-129 | A `ForNode` renders its body once per iteration, in order, with the loop variables bound over the outer names. |
| `Templates.TemplateFormat` | template.py:193-194 | `Template.format` renders in the environment where call-time arguments override constructor arguments. |
| `Templates.PlainTextRendersVerbatim` | template.py:50-51 | The tree `Compile` returns for a template without tags, `Block([Raw(text)])`, renders its text unchanged and unparses to the template's tokens. |
| `Htl.ToHtml` | htl.py:11-20 | A string child renders as its escaped text, and unescaping that gives the string back. Any other non-element, non-iterable child renders as its `str()`. |
| `Htl.ChildrenPieces` | htl.py:14-28 | Children that are all strings give one piece each, in order, each being the escaped string. |
| `Htl.Escape` | htl.py:15 | Escaped text holds no `<`, `>`, `"` or `'`. |
| `Htl.EscapeRoundTrip` | htl.py:15 | Escaping loses nothing: unescaping its five entities gives the text back. |
| `Htl.AttributePieces` | htl.py:24-25 | One ` name="value"` piece per attribute, in insertion order, with the value unescaped. |
| `Htl.AttributesRendered` | htl.py:24-25 | The attributes render as ` name="value"` each, in order. |
| `Htl.Str` | htl.py:22-32 | `str(element)` is `<tag`, then the attributes, then `>`, then the children, then `</tag>`. |
| `Htl.RenderAllAppend` | htl.py:31-32 | Joining the pieces distributes over concatenation. |
| `Htl.TextChildHasNoMarkup` | htl.py:14-15 | A string child contributes its escaped text as one piece, with no raw `<`, `>`, `"` or `'`. |
| `Htl.ChildRendered` | htl.py:11-20 | A nested element contributes its own `str()` without re-escaping. A string contributes its escaped text and is never split. Any other value contributes its `str()` unescaped. An iterable contributes its items in order. |
| `Htl.Balanced` | htl.py:22-29 | The start and end tags of every serialised value pair up, well nested, and leave the surrounding open tags unchanged. |
| `Htl.ChildrenBalanced` | htl.py:27-28 | The children of an element are balanced together. |
| `Htl.ElementWellNested` | htl.py:22-32 | The start and end tags among the pieces `__iter__` yields for an element pair up, well nested, from an empty stack. |
| `Htl.WriterElement` | htl.py:35-39 | `_.t(...)` builds an element whose `str()` opens with `<t` and closes with `</t>`, and whose pieces nest. |
| `Bleualign.IndexDocument` | bleualign.py:20-41 | Reading in 32768-byte chunks gives the position after every `\n` in the whole data. A final offset equal to the length is dropped. |
| `Bleualign.ScanChunk` | bleualign.py:28-34 | Scanning one chunk appends the absolute position after each `\n` in it. |
| `Bleualign.LineEndsExact` | bleualign.py:29-32 | The offsets are exactly the positions just after a `\n`, strictly increasing. |
| `Bleualign.IndexedOffsets` | bleualign.py:37-39 | Every returned offset follows a `\n` and is below the length. The offsets strictly increase. Every `\n` except a final one contributes an offset. |
| `Bleualign.IndexDocument2` | bleualign.py:44-54 | The loop records the entries of `Index2` while advancing the offset over every line. |
| `Bleualign.EntryOfFields` | bleualign.py:49-52 | A line yields an entry exactly when it holds at least two tabs. The entry's src is the text before the first tab and its trg the text between the first and second tabs. |
| `Bleualign.Index2` | bleualign.py:44-54 | There are at most as many entries as lines. Every offset lies within the data read so far, and the offsets never decrease. |
| `Bleualign.Index2Sound` | bleualign.py:47-53 | Every entry's offset is the total length of all preceding lines, skipped lines included. |
| `Bleualign.Index2Complete` | bleualign.py:48-52 | Every line with at least two tabs has its entry. |
| `Bleualign.LazyDict.constructor` | bleualign.py:12-14 | A new `lazydict` is empty and keeps its factory. |
| `Bleualign.LazyDict.Get` | bleualign.py:16-17 | A missing key answers `factory(key)` and stores nothing. A present key answers its value. |
| `Bleualign.LazyDict.Put` | bleualign.py:10-11 | Storing a key changes that key only. |
| `Bleualign.JoinPath` | bleualign.py:63 | `os.path.join` with an absolute second part gives that part. Otherwise the result is the first part, then the second, with one `/` between them exactly when the first part is non-empty and does not already end in `/`. |
| `Bleualign.GetAlignedFilename` | bleualign.py:59-66 | A name without `-bleualign-input.tab.gz` has no aligned file. A returned name exists on disk. |
| `Bleualign.AlignedFilenameOf` | bleualign.py:59-66 | For `prefix + "-bleualign-input.tab.gz" + rest`, where the suffix first occurs after `prefix`, the result is `../aligned/<prefix>-aligned.gz` when that file exists. |
| `Bleualign.GroupedStep` | bleualign.py:75-76 | Appending an entry's offset to its `(src, trg)` group keeps every group equal to that pair's offsets, in original order. |
| `Bleualign.IndexAlignedDocument` | bleualign.py:69-77 | Returns an empty map without an aligned file. Otherwise each `(src, trg)` pair that occurs maps to its offsets in original order, and only such pairs are keys. |
| `Bleualign.LeadingEmpty` | bleualign.py:94 | Counts the leading `""` items, which are followed by the end or by a non-empty item. |
| `Bleualign.LTrim` | bleualign.py:93-96 | Returns the suffix after the leading `""` items, which is empty or starts with a non-empty item. |
| `Bleualign.LTrimIdempotent` | bleualign.py:93-96 | Trimming the result again removes nothing. |
| `Dashboard.SplitDashes` | dashboard.py:19 | The split at the first two dashes rejoins to the name. Step and language hold no dash, and the collection keeps any further dashes. |
| `Dashboard.Classify` | dashboard.py:14-20 | Uses `NAME` if present with at least two dashes, otherwise `JobName` under the same condition, otherwise nothing. |
| `Dashboard.NewJob` | dashboard.py:14-20 | `Job(...)` keeps all its fields. It is classified exactly when `NAME` or `JobName` holds at least two dashes. The step, language and collection rejoin with dashes to `NAME` when that qualifies, and to `JobName` otherwise. |
| `Dashboard.LanguageNameExact` | dashboard.py:33 | The scanner accepts exactly 1-2 lowercase letters, optionally followed by `-` and at least one ASCII letter, with one final newline allowed by `$`. |
| `Dashboard.Languages` | dashboard.py:27-33 | There are no languages without a shard directory. Otherwise the languages are exactly the sub-directories with a language name. |
| `Dashboard.ZipLastWins` | dashboard.py:43 | `dict(zip(...))` keys are the headers paired with a value (`zip` truncates). A repeated header keeps its last column. |
| `Dashboard.ParseQueue` | dashboard.py:37-43 | The first line's `\|` fields are the headers. Every later line is one job whose fields are paired with them. No lines is an error. |
| `Dashboard.MatchAtExact` | dashboard.py:49 | The scanner matches at a position exactly when `\b[A-Z][A-Za-z_/:]+=[^\s]+` matches there, reading `\w` (and so `\b`) as ASCII. `\s` is Python's full whitespace class. |
| `Dashboard.NextMatchFirst` | dashboard.py:49 | The next match is the first one: no match starts before it. |
| `Dashboard.AssignmentsWellFormed` | dashboard.py:49-54 | Keys and values are what the pattern accepts. A `Command` assignment takes the rest of the line and is the line's last. |
| `Dashboard.ApplyLastWins` | dashboard.py:50-54 | A later assignment of a key overwrites an earlier one. Keys never assigned keep their old value. |
| `Dashboard.ScanFromApplies` | dashboard.py:49-54 | Scanning a line applies its assignments in order. |
| `Dashboard.ScanLine` | dashboard.py:49-54 | The loop over one line's matches applies its assignments in order. |
| `Dashboard.ParseJobDetails` | dashboard.py:45-55 | The job holds the fields every line's assignments set, in order, and is classified. |
| `Dashboard.NamePathSplit` | dashboard.py:64 | A line with a tab is name, tab, path, where the name holds no tab. |
| `Dashboard.ReadCollections` | dashboard.py:57-66 | Maps each name to the path of its last line. Fails at the first line without a tab. |
| `Dashboard.NoTabExists` | dashboard.py:64 | Fails exactly when some line has no tab. |
| `Dashboard.EmptyGrid` | dashboard.py:78-81 | Every language × collection cell starts empty. |
| `Dashboard.Place` | dashboard.py:83-85 | A job with both attributes is appended to its cell, and a job without them is skipped. A missing cell raises `KeyError` for the first missing key. |
| `Dashboard.Bucket` | dashboard.py:76-85 | Each cell holds exactly the jobs classified into it, in order. The first misplaced job raises `KeyError`. |
| `Warc2text.MakePage` | warc2text.py:99-104 | Page n has `start = n*PAGE`, `end = min((n+1)*PAGE, len)`, and its items are that slice. |
| `Warc2text.ShownPages` | warc2text.py:102-104 | The first n pages show the first `n*PAGE` items, as far as the list goes. |
| `Warc2text.Paginate` | warc2text.py:110-118 | `Pagination` keeps the items, and its page count is `len // PAGE`: the pages hold at most all the items, and fewer than one more page of them. |
| `Warc2text.PaginateAll` | warc2text.py:103-118 | With the page count rounded up, the pages hold at least all the items and less than one page more. |
| `Warc2text.PaginateFullPages` | warc2text.py:110-118 | `Pagination` keeps all items and builds floor(len/PAGE) pages. Page i has number i and exactly PAGE items, `items[i*PAGE..(i+1)*PAGE]`, so the pages are contiguous and do not overlap. |
| `Warc2text.PaginateShowsWholePages` | warc2text.py:115-118 | The pages show exactly the items before the last `len mod PAGE`. |
| `Warc2text.PaginateDropsTail` | warc2text.py:117 | With 15 records, records 11-15 are on no page. |
| `Warc2text.PaginateShortListHasNoPage` | warc2text.py:117 | With 5 records there is no page at all. |
| `Warc2text.PaginateAllShowsAll` | warc2text.py:103 | With the page count rounded up, every item is on a page in order, and every page but the last is full. |
| `Warc2text.Tally` | warc2text.py:151 | `Counter` has each value once, and its counts sum to the number of values counted. |
| `Warc2text.BumpCounts` | warc2text.py:151 | Counting one occurrence adds one to that value's count and to the sum. |
| `Warc2text.TallyCounts` | warc2text.py:151 | `Counter` counts every value as often as it occurs. |
| `Warc2text.NewLanguage` | warc2text.py:126-129 | `Language` keeps its name and its counter. No domain counts more than the size. |
| `Warc2text.LanguageSize` | warc2text.py:126-129 | `Language.size` is the sum of the domain counts, which is the number of URLs. |
| `Warc2text.InsertBySize` | warc2text.py:180 | Insertion adds exactly one element. |
| `Warc2text.InsertBySizeElements` | warc2text.py:180 | Insertion adds the element and loses nothing. |
| `Warc2text.InsertBySizeSorted` | warc2text.py:180 | Insertion keeps the list ordered by size, descending. |
| `Warc2text.InsertBySizeStable` | warc2text.py:180 | Insertion keeps equal-size languages in order, with the new one last. |
| `Warc2text.SortBySize` | warc2text.py:180 | The sort keeps the length of the list. Its order, permutation and stability are the three lemmas below. |
| `Warc2text.SortBySizeSorted` | warc2text.py:180 | The sort puts larger languages first. |
| `Warc2text.SortBySizeElements` | warc2text.py:180 | The sort is a permutation. |
| `Warc2text.SortBySizeStable` | warc2text.py:180 | The sort is stable: equal sizes keep directory order. |
| `Warc2text.LanguagesOf` | warc2text.py:172-176 | There is at most one language per directory entry. Each comes from a listed entry of the same name: a directory whose name does not start with `.`. |
| `Warc2text.ListingKeeps` | warc2text.py:172-176 | The kept entries are exactly the directories whose name does not start with `.`. |
| `Warc2text.LanguagesOfListing` | warc2text.py:172-176 | There is one language per kept directory, in directory order. The i-th language is named after the i-th kept directory and holds the `Counter` of its URLs' domains. |
| `Warc2text.LanguagesRecords` | warc2text.py:172-178 | The language sizes sum to the records of the listed directories. |
| `Warc2text.OutputIndex` | warc2text.py:171-182 | `total` is the number of records of the listed directories. The list is ordered by size descending and is a permutation of the languages. |
| `Warc2text.OutputIndexStable` | warc2text.py:180 | The list keeps languages of equal size in directory order. |

## Left out

- HTTP serving in web.py: `RequestHandler`, `Response`, `FileResponse`'s poll loop, `send_file`, `send_json`, `main` and `_full_stack`. They are sockets, threads and I/O.
- The regular expressions themselves: the placeholder regex of `compile_route`, `re.escape` and the template tag expressions. Patterns and templates enter already split into parts.
- `quote_plus`, `unquote_plus` and `urlencode` are library calls. They enter as the functions of a `UrlCodec`.
- Web.Application.UrlFor: returns the query as a map of names to values rather than the `urlencode`d text, because the order of a Python set and the encoding are outside the model.
- Web.LinkFor: `StrFormat` reads only plain `{name}` fields, `{{` and `}}`. Format specs (`{a:>3}`), conversions (`{a!r}`), and index or attribute fields (`{a[0]}`, `{a.b}`) in a route's literal text are not modelled. A route such as `/x{a:>3}/<str:a>` is read as `BadFormat`, where Python pads the value.
- Web.ToStr: models `int`- and `str`-valued arguments only. Other Python values (floats, objects with `__int__`) are not modelled.
- Web.ParseInt: reads ASCII digits only. `int()` also accepts other Unicode decimal digits (e.g. Arabic-Indic ones), and the `\d+` of `IntConverter` matches them too. The model rejects them.
- MatchAtExact: `\w`, and so `\b`, is read as ASCII letters, digits and `_`. Python's `\w` also holds every Unicode letter and digit. So on a line such as `éA=1`, where Python sees no word boundary before `A`, the model finds a match. Whitespace (`\s`, `str.strip()`) is modelled with Python's full set.
- Bleualign.Index2Sound: `src` and `trg` stay bytes. The `.decode()` at bleualign.py:52 raises `UnicodeDecodeError` on invalid UTF-8 and aborts `index_document_2`. The model never fails there.
- Htl.ElementWellNested: the promise is about the pieces, not the text. Attribute values (htl.py:25) and non-string, non-element children (htl.py:19-20) are not escaped. So the joined string of `h.td(h.a('x', href='"></td><td>'))` is not well nested, and the model does not claim it is.
- The route's `path_placeholders` dict is derived from the compiled expression (`Placeholders`) rather than stored. A repeated name is rejected as `re.compile` rejects it.
- Python `eval` and `builtins.compile` in `Expression`, `IfNode` and `ForNode`. Expressions are opaque functions of the environment. A syntax error, which `builtins.compile` raises when the template is compiled (template.py:57, 89, 114), is not modelled. An exception `eval` raises while rendering is modelled as `EvalError` of the expression's text, without its Python exception type. Iterating the loop's iterable is taken whole, so an exception raised midway through iteration is reported before any item renders.
- The `__repr__` and `__str__` debug output of the template nodes, and the stray `print` in `ForNode`.
- gzip decompression, base64 decoding and file seeks (`get_document`, `get_aligned_sentences`, `read_records`, reading the file in `count_domains`). Decompressed contents are given as bytes or lines.
- Bleualign.GetAlignedFilename: `os.path.exists` is a predicate parameter. The module-level `indexes` and `aligned_indexes` caches are a `LazyDict` passed in.
- `human_filesize` and the percentage shown by warc2text.py use floating point and are left out. `int(len/PAGE)` is modelled as integer floor division.
- `urlparse(...).netloc` in `domain()` is a library call. It enters as a function parameter.
- `squeue`, `scontrol`, `bash config.sh`, `os.scandir` and `os.path.isdir` in dashboard.py. Their output is given as lines, and directory listings as values.
- The HTML assembly in the route handlers of dashboard.py and warc2text.py, including the code after the first `return` in `index`, which cannot be reached.
- Dashboard.Classify: `Job`'s optional `step`/`language`/`collection` attributes become an `Option<Classification>` beside the fields.
- Htl.ChildRendered: a non-string, non-iterable child enters already shown with `str()`. Attribute values enter as strings.
- Htl.ToHtml: every iterable child is a sequence that can be read again. A generator child, such as the ones dashboard.py:90 and 93-106 pass to `h.*`, is used up by the first `str()`, and a second `str()` of the same element renders it empty. The model does not capture that.
- test.py only registers routes and serves a page. Its `url_for` calls inform the `UrlFor` contract.

## Findings

| source | as written | input that shows it | evidently intended | confidence | as-written member | corrected member |
|---|---|---|---|---|---|---|
| web.py:113-114 | `PathConverter.to_python` calls `unquote_plus(str(val), safe='/')`, and `unquote_plus` has no `safe` parameter | any path matched by a `<path:p>` placeholder, e.g. route `/files/<path:p>` and path `/files/a` raises `TypeError` | `unquote_plus(str(val))`, as `StrConverter` does | high, not executed | `Web.PathCaptureRaisesAsWritten` | `Web.ToPython` |
| warc2text.py:117 | `range(int(len(items) / PAGE))` rounds the page count down | 15 records: records 11-15 are on no page; 5 records: no page at all, so the template's `records.pages[page]` (warc2text.py:63) raises `IndexError` | round the count up, as the `min(..., len(items))` clamp of `Page.end` (warc2text.py:103) provides for | medium, not executed | `Warc2text.PaginateDropsTail` | `Warc2text.PaginateAllShowsAll` |
