# Learning route: a Dafny model

A model of the learning page of a small React site. The page lists five topics. Each topic has a folder of content files, and a reader pages through a topic's files in rank order. The address bar carries a deep link `#/learningroute/<topic>/<rank>`, so re-entering at a link shows the same file again. The model covers the page's three parts.

- **Loading a topic** (`loader.dfy`, with `filename.dfy` and `strings.dfy`):
  - The page fetches `/content/<topic>/manifest.json`, a JSON array of file names.
  - It keeps the names of the form `<digits>_<name>.<md|html|pdf>`.
  - It turns each kept name into a rank, a display name (underscores become spaces) and a type.
  - A pdf's content is its URL. Markdown and html files are fetched.
  - The result is sorted stably by rank.
  - Any failure gives the empty list. The network is an oracle parameter (`Loader.Network`).
- **Navigation** (`navigation.dfy`): the page's state becomes the class `Navigation.Reader`.
  - Its fields are the loaded files, the current index, the selected topic, the expanded topics and the address-bar hash.
  - The effect that runs on entry and the four click handlers become methods that update that state.
  - Route matching, deep links and `parseInt` of the rank are modelled, so the re-entry round trip can be proved.
- **Rendering** (`markdown.dfy`):
  - Markdown is split on line feeds and each line is classified by the first marker test it passes.
  - Html is shown as it is; a pdf is shown from its URL.

Every `Option` stands for JavaScript's `null`/`undefined`/`NaN` (`options.dfy`).

## Model

| member | source | states |
|---|---|---|
| Strings.LeadingRun | src/pages/LearningRoute.jsx:58 | the length of the longest prefix whose characters all satisfy the predicate (the `\d+` run the pattern starts with) |
| Strings.NatToString | src/pages/LearningRoute.jsx:136 | the decimal text a template literal writes for a rank: non-empty, digits only, no leading zero, and it denotes the rank |
| Strings.ParseInt | src/pages/LearningRoute.jsx:123 | `parseInt` of a non-empty string of digits is its decimal value, and of a string without any digit is `NaN`; the six lemmas below fix its value on every other string, and Strings.ParseIntNatToString states the round trip with `${n}` |
| Strings.ParseIntSkipsWhiteSpace | src/pages/LearningRoute.jsx:123 | leading ECMAScript white space never changes what `parseInt` reads |
| Strings.ParseIntSign | src/pages/LearningRoute.jsx:123 | after the white space, `-` negates the value read from the rest and `+` keeps it (`NaN` stays `NaN`), when the rest starts with neither white space nor a second sign |
| Strings.ParseIntDecimal | src/pages/LearningRoute.jsx:123 | a decimal digit run followed by any non-digit reads as the run's value (`parseInt("3abc")` is 3), except a lone `0` followed by `x` or `X` |
| Strings.ParseIntHex | src/pages/LearningRoute.jsx:123 | after `0x` or `0X`, the hexadecimal digit run up to the first other character is read in base 16, and an empty run is `NaN` |
| Strings.ParseIntNaN | src/pages/LearningRoute.jsx:123 | a string whose first character is none of white space, a sign and a digit reads as `NaN` |
| Strings.ParseIntSignThenNoDigit | src/pages/LearningRoute.jsx:123 | a sign followed by nothing, by white space or by a second sign reads as `NaN` (`"- 3"`, `"-+3"`) |
| Strings.ParseIntNatToString | src/pages/LearningRoute.jsx:123 | `parseInt` of the text written for rank n is n, so a rank survives the trip through the address bar |
| Strings.Trim | src/pages/LearningRoute.jsx:205 | `trim()`: the result is a piece of the line that neither starts nor ends with ECMAScript white space or a line terminator, and every character cut off around it is one |
| Strings.BlankIffTrimEmpty | src/pages/LearningRoute.jsx:205 | `line.trim() === ''` holds exactly when every character is white space, the test Strings.IsBlank makes for the spacer case |
| Strings.IndexOfFrom | src/pages/LearningRoute.jsx:209 | the first position at or after `from` where the separator occurs, or none when it occurs nowhere there |
| Strings.Split | src/pages/LearningRoute.jsx:195 | `split(sep)`: at least one piece; joining the pieces with sep gives the string back; no piece contains sep; every piece but the last ends at the leftmost next occurrence of sep (not even the piece followed by all of sep but its last character contains sep); more than one piece exactly when the string contains sep |
| Strings.SplitCount | src/pages/LearningRoute.jsx:195 | splitting on one character gives one more piece than the string has occurrences of that character |
| FileName.Spaced | src/pages/LearningRoute.jsx:65 | every underscore becomes a space and every other character stays, position by position |
| FileName.ParseFileName | src/pages/LearningRoute.jsx:58-66 | an accepted name starts with a digit, and its display name is non-empty with no underscore; FileName.AcceptedHasType states the extension, and FileName.ParseComplete and FileName.ParseSound state that it accepts exactly the names matching the pattern |
| FileName.ParseComplete | src/pages/LearningRoute.jsx:58-66 | every name matching `^(\d+)_(.+)\.(md|html|pdf)$` is accepted, with rank the decimal value of group 1, display name group 2 with underscores spaced, and type group 3 |
| FileName.ParseSound | src/pages/LearningRoute.jsx:58-66 | every accepted name matches the pattern, and its entry is built from that match's groups |
| FileName.NoRankRejected | src/pages/LearningRoute.jsx:58-62 | every name that does not start with a digit is dropped |
| FileName.EmptyNameRejected | src/pages/LearningRoute.jsx:58-62 | every name whose part between `_` and the extension is empty is dropped |
| FileName.UnknownTypeRejected | src/pages/LearningRoute.jsx:58-62 | every name ending in none of `.md`, `.html`, `.pdf` is dropped |
| FileName.AcceptedHasType | src/pages/LearningRoute.jsx:58-62 | every accepted name ends in `.md`, `.html` or `.pdf` |
| Loader.LoadEntry | src/pages/LearningRoute.jsx:56-88 | one manifest name is dropped exactly when it does not match; it fails exactly when it is markdown/html and its fetch rejects; otherwise its item carries the parsed rank, name and type, with the pdf URL or the fetched body as content |
| Loader.Outcomes | src/pages/LearningRoute.jsx:55-89 | one outcome per manifest name, in manifest order, each the per-name outcome |
| Loader.Compact | src/pages/LearningRoute.jsx:92 | `filter(Boolean)`: no longer than its input, and an item survives exactly when it was loaded; Loader.CompactOutcomes states order and count |
| Loader.Matching | src/pages/LearningRoute.jsx:92 | the names kept are exactly the listed names that match the pattern |
| Loader.Insert | src/pages/LearningRoute.jsx:92 | inserting an item adds exactly that item to the multiset |
| Loader.SortByRank | src/pages/LearningRoute.jsx:92 | the result is ascending by rank and a permutation of the input |
| Loader.InsertSorted | src/pages/LearningRoute.jsx:92 | inserting into a sorted list keeps it sorted |
| Loader.InsertWithRank | src/pages/LearningRoute.jsx:92 | insertion puts the item first among its own rank and leaves every rank's items in order |
| Loader.SortByRankStable | src/pages/LearningRoute.jsx:92 | stability: for every rank, the items of that rank keep their input order |
| Loader.CompactOutcomes | src/pages/LearningRoute.jsx:92 | when nothing fails, `filter(Boolean)` gives one item per matching name, in manifest order, each that name's item |
| Loader.LoadFiles | src/pages/LearningRoute.jsx:43-97 | `loadFiles`: the result is sorted by rank, non-empty only when the manifest was read, and made only of items loaded from its names; Loader.LoadFilesFailure, Loader.LoadFilesSorted and Loader.LoadFilesDescribe state the full contract |
| Loader.LoadFilesFailure | src/pages/LearningRoute.jsx:47-50 | a manifest that is not ok, a manifest that cannot be read, or a rejected fetch of any listed markdown/html file gives the empty list |
| Loader.LoadFilesSorted | src/pages/LearningRoute.jsx:43-97 | when all fetches succeed: sorted by rank, one item per matching name, a permutation of the loaded items, equal ranks in manifest order |
| Loader.LoadFilesDescribe | src/pages/LearningRoute.jsx:69-87 | every loaded item comes from a listed name: rank, name and type parsed from it, and content its pdf URL or its fetched body |
| Loader.CompactDescribes | src/pages/LearningRoute.jsx:82-92 | every item that survives the filter describes one of the listed names |
| Loader.PdfNeedsNoFetch | src/pages/LearningRoute.jsx:69-76 | pdfs are never fetched: networks that agree on the manifest and on the markdown/html bodies give the same result |
| Markdown.Spans | src/pages/LearningRoute.jsx:212 | one span per piece with the piece's text; a span is bold exactly when its index is odd |
| Markdown.ClassifyLine | src/pages/LearningRoute.jsx:196-217 | a line is a level-1, level-2 or level-3 heading, a list item or a spacer exactly when it starts with `# `, `## `, `### `, `- ` or is blank (the tests exclude one another); any other line is a paragraph, bold exactly when it contains `**`; Markdown.ClassifyRoundTrip and Markdown.BoldParagraph state what each block keeps |
| Markdown.ClassifyRoundTrip | src/pages/LearningRoute.jsx:196-217 | classifying a line loses only the whitespace of a blank line: the block's marker plus its text, or its pieces joined by `**`, give the line back |
| Markdown.BoldParagraph | src/pages/LearningRoute.jsx:207-214 | a line is a bold paragraph exactly when no earlier test applies and it contains `**`; it then has at least two pieces, none containing `**`, which join back to the line, each but the last cut at the leftmost `**` (so `***x***` gives `""`, bold `*x`, `*`), with the odd ones bold |
| Markdown.RenderMarkdown | src/pages/LearningRoute.jsx:195-218 | one block per line of `split('\n')`, each the classification of its line |
| Markdown.OneBlockPerLine | src/pages/LearningRoute.jsx:195-196 | there is one more block than line feeds; the lines hold no line feed and join back to the content |
| Markdown.RenderContent | src/pages/LearningRoute.jsx:192-233 | markdown is shown as the blocks Markdown.RenderMarkdown classifies, one per line of the content; html is shown unchanged, and a pdf is shown from its content URL |
| Navigation.FindTopic | src/pages/LearningRoute.jsx:189 | the topic with the selected id when one exists among the five, and none exactly when the id is absent or unknown |
| Navigation.FindTopicFrom | src/pages/LearningRoute.jsx:189 | a topic at or after `from` with the id, the first such in the list, and none exactly when there is none |
| Navigation.FindRankIndex | src/pages/LearningRoute.jsx:123 | `findIndex(f => f.rank === parseInt(rank))`: the first index holding the rank, and -1 exactly when the rank is `NaN` or absent |
| Navigation.DeepLink | src/pages/LearningRoute.jsx:136-184 | the hash `/learningroute/${topic}/${rank}` written at lines 136, 158, 168, 176 and 184: it starts with the route prefix, the topic id and a slash, and the rest is a non-empty run of decimal digits denoting the rank |
| Navigation.MatchRoute | src/App.jsx:11 | a matched path is `/learningroute/` then the topic, `/` and the rank, both non-empty and without `/`; with Navigation.MatchShape for the converse, a path matches exactly when it has that shape, and the parameters are its two segments |
| Navigation.MatchShape | src/App.jsx:11 | every path `/learningroute/<topic>/<rank>` with both segments non-empty and free of `/` matches, with those segments as `topicId` and `rank` |
| Navigation.MatchDeepLink | src/App.jsx:11 | the route `/learningroute/:topicId/:rank` applied to a written deep link gives back its topic and its rank's text |
| Navigation.DeepLinkRoundTrip | src/pages/LearningRoute.jsx:123-124 | with distinct ranks, following the link written for file i finds file i again |
| Navigation.DeepLinkFirstOfRank | src/pages/LearningRoute.jsx:123 | with shared ranks, following a file's link finds the first file of that rank, at or before it |
| Navigation.NextIndex | src/pages/LearningRoute.jsx:172-178 | Next keeps an in-range index in range, moves by at most one, and stays put exactly at the last file |
| Navigation.PrevIndex | src/pages/LearningRoute.jsx:180-186 | Previous never increases the index, moves by at most one, and stays put exactly at the first file |
| Navigation.PagingUndo | src/pages/LearningRoute.jsx:172-186 | a step that moved is undone by the opposite step |
| Navigation.Reader.CurrentFile | src/pages/LearningRoute.jsx:188 | the current file exists exactly when the index is in range, and it is the file at the index |
| Navigation.Reader.Shown | src/pages/LearningRoute.jsx:475-491 | content is shown exactly when there is a current file and the selected topic is known, rendered by its type |
| Navigation.Reader.constructor | src/pages/LearningRoute.jsx:101-107 | the initial state: no files, index 0, no topic, nothing expanded |
| Navigation.Reader.InitializeFromURL | src/pages/LearningRoute.jsx:110-143 | with topic and rank in the route: load that topic, select and expand it, show the first file of that rank or else index 0, and leave the hash alone; otherwise, with no topic selected: load the first topic, make it the only expanded one, show index 0 and write its first file's link; otherwise change nothing |
| Navigation.Reader.OpenAtRank | src/pages/LearningRoute.jsx:117-123 | the route branch once the files are loaded: those files, the topic selected and expanded with every other entry kept, the first file of the rank or else index 0, the hash unchanged |
| Navigation.Reader.OpenFirst | src/pages/LearningRoute.jsx:127-136 | the first-topic branch once the files are loaded: those files, the topic selected and the only one expanded, index 0, and that file's link written when there is a file |
| Navigation.Reader.ShowTopic | src/pages/LearningRoute.jsx:147-158 | a topic click once the files are loaded: those files, the topic selected, index 0, its expansion flipped and no other, and the first file's link written when there is a file |
| Navigation.Reader.HandleTopicClick | src/pages/LearningRoute.jsx:145-161 | reload the topic, select it, go to index 0, flip its expansion and no other, and write the first file's link when there is a file |
| Navigation.Reader.HandleFileClick | src/pages/LearningRoute.jsx:163-170 | set the index unchecked, and write that file's link only when it exists |
| Navigation.Reader.HandleNext | src/pages/LearningRoute.jsx:172-178 | advance unless on the last file, and write the new file's link when the index moved |
| Navigation.Reader.HandlePrev | src/pages/LearningRoute.jsx:180-186 | go back unless on the first file, and write the new file's link when the index moved onto an existing file |
| Navigation.ReopenAtHash | src/pages/LearningRoute.jsx:116-124 | opening a topic, pressing Next, then opening a new page at the written hash shows the same index, when ranks are distinct and the network answers the same |

What the page does not do:

- **No cache.** Every topic click fetches the topic again; a second click on the open topic reloads it, goes back to its first file, rewrites that file's hash and flips the expansion.
- **No per-file isolation.** One rejected file fetch rejects the `Promise.all`, and the whole topic loads as the empty list (`Loader.LoadFilesFailure`).
- **No file-status check.** The status of a file response is never checked. The body of an error response becomes the content.
- **Only three types.** The accepted types are `md`, `html` and `pdf`; there are no others.
- **No persistence.** Nothing is persisted beyond the address-bar hash.
- **An empty topic.** It leaves the index at 0 with no current file, rather than an absent index.

## Left out

- Presentation is not modelled: the JSX markup, styles, icons, dark mode, the sidebar toggle and the loading flag. The loading flag only switches a spinner.
- Asynchrony is not modelled. The `Promise.all` fetches are taken one after the other; the result does not depend on completion order. Interleavings of a handler with a second click or with the route effect are not modelled.
- React's scheduling is not modelled. The effect's dependency on the route parameters and the re-run caused by a handler writing the hash are left to the caller, which passes `MatchRoute(hash)` to `InitializeFromURL`, as `Navigation.ReopenAtHash` does.
- Logging is left out: `console.error` and `console.warn` have no observable effect on the state.
- The network is a parameter (`Loader.Network`). Separate failures of `fetch`, `response.json()` and `response.text()` are folded into one rejected or threw answer. So is a manifest whose JSON is not an array of strings.
- Strings.ParseInt: JavaScript numbers are doubles. The loss of precision above 2^53 is not modelled for `parseInt` or for ranks read from file names.
- Strings.NatToString writes every rank in plain digits. From 10^21 on, a template literal writes exponent notation (`1e+21`), and `parseInt` reads that back as 1, so the deep-link round trip holds in the page only for ranks below 10^21.
- Navigation.MatchRoute covers only the path shape `/learningroute/<topic>/<rank>`. React Router's case-insensitive matching of the path, its percent-decoding of parameters and its acceptance of a trailing slash are not modelled.
- Markdown.RenderContent: the final `<div>{content}</div>` fallback is not modelled. The type always comes from the file-name pattern, so it is always `md`, `html` or `pdf`.
- `public/content/index.js` and the rest of `src/App.jsx` are not part of this model. The first is not read by the page, and the second only mounts the page at its two routes.
