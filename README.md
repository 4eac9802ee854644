# codelytics, modelled in Dafny

codelytics computes descriptive statistics about code and text. This
project models its analysers and proves properties of them:

- `TextAnalysis` gives word, character, non-ASCII and sentence counts over a list of texts. Each comes as a total, a mean or a median.
- `Names` gives the naming-convention columns of a set of identifiers.
- `Py` works on Python source: syntax validity, import counts, imported top-level modules, McCabe complexity, user-defined names, comments, docstrings and logical lines.
- `Notebook` counts a Jupyter notebook's cells by type and extracts its code or markdown cells.
- `Dir` opens a directory, recognises a git repository, counts commits and enumerates files by suffix.
- `Pdf` counts pages, finds the references page with a heading pattern, and counts words while skipping chosen pages.

The project has one module per source file, plus a few shared modules:

| Module | Contents |
|---|---|
| `Common` | Option, Result and the error kinds; the int-or-float `Number`; a list-comprehension combinator. |
| `Strings` | ASCII whitespace; `str.split`, `strip`, `splitlines` and `join`; `int()` parsing. |
| `Statistics` | Sum, insertion sort, mean and median, with their bounds. |
| `TextStats` | `text_analysis.py`, and the `Comments` and `Docstrings` subclasses, which add nothing. |
| `NameStats` | `names.py`. Each regular expression is written as a recursive predicate, and a lemma proves it equal to a plain description of the language. |
| `Ast` | The subset of Python's abstract syntax tree that the analysers inspect. `ast.walk` is modelled as the breadth-first queue it is, and proved to visit every node of the tree exactly once. |
| `PyCode` | `py.py`. |
| `Notebooks` | `notebook.py`. |
| `Dirs` | `dir.py`. |
| `Pdfs` | `pdf.py`. The heading pattern is written two ways, as a deterministic scan and as a declarative language; a lemma proves the two equal. |

Code the analysers call but that cannot be seen is passed in as a parameter:

| Parameter | Stands for |
|---|---|
| `PyCode.Library` | `ast.parse`, radon's raw `lloc` and the comment tokens of `tokenize`. |
| The notebook reader | `nbformat.read` on the file's text. |
| `Dirs.GitRun` | The outcome of `git rev-list --count`. |
| The page texts of a `Pdf` | What `fitz` reads. |
| `Path` and `Location` records | What the file system says about a path, and what reading it as UTF-8 gives. |

Loops that the source writes as loops are methods with invariants. Each is
proved equal to a function that specifies it, and properties are proved
about that function.

## Model

| member | source | states |
|---|---|---|
| Statistics.SumAppend | src/codelytics/text_analysis.py:31-32 | a total over two lists is the sum of their totals |
| Statistics.SumWithin | src/codelytics/text_analysis.py:31-32 | values in [lo, hi] give a total between lo·n and hi·n |
| Statistics.Sort | src/codelytics/text_analysis.py:33-34 | the sort the median reads is ordered and a permutation of its input |
| Statistics.MeanTimesCount | src/codelytics/text_analysis.py:35-36 | the mean times the number of values is their total |
| Statistics.MeanWithin | src/codelytics/text_analysis.py:35-36 | the mean lies between any lower and upper bound of the values |
| Statistics.MedianWithin | src/codelytics/text_analysis.py:33-34 | the median lies between any lower and upper bound of the values |
| Statistics.MedianOddIsValue | src/codelytics/text_analysis.py:33-34 | for an odd number of values, the median is one of them |
| Statistics.MedianHalves | src/codelytics/text_analysis.py:33-34 | at most half the values lie strictly below the median, and at most half strictly above |
| Statistics.SortedHalves | src/codelytics/text_analysis.py:33-34 | in sorted values at most half lie strictly below the middle value, and at most half strictly above |
| Statistics.CountPermutation | src/codelytics/text_analysis.py:33-34 | how many values satisfy a test does not depend on their order |
| TextStats.TextAnalysis.Len | src/codelytics/text_analysis.py:22-24 | the length is zero exactly when there are no texts |
| TextStats.Stat | src/codelytics/text_analysis.py:26-36 | 0 (an int) for no values; the int total; otherwise a float, the median or a mean whose product with the count is the total |
| TextStats.StatWithin | src/codelytics/text_analysis.py:26-36 | a mean or median lies within the bounds of the values |
| TextStats.StatSingle | src/codelytics/text_analysis.py:26-36 | for one value, total, mean and median all equal that value |
| TextStats.WordCounts | src/codelytics/text_analysis.py:57 | one count per text, its number of whitespace-separated words |
| TextStats.NWords | src/codelytics/text_analysis.py:38-58 | 0 without texts; the total is the sum of the word counts |
| TextStats.NChars | src/codelytics/text_analysis.py:60-80 | 0 without texts; the total is the sum of the text lengths |
| TextStats.TotalCharsIsConcatLength | src/codelytics/text_analysis.py:79-80 | the total character count is the length of all texts together |
| TextStats.NonAsciiZeroIffAscii | src/codelytics/text_analysis.py:101-104 | a text has no non-ASCII count exactly when every character is at most 127 |
| TextStats.NonAsciiAppend | src/codelytics/text_analysis.py:103 | the non-ASCII count of joined texts is the sum of their counts |
| TextStats.NNonAscii | src/codelytics/text_analysis.py:82-105 | the loop yields the statistic of the per-text non-ASCII counts, each at most the text's length |
| TextStats.SentencesAreMatches | src/codelytics/text_analysis.py:130-133 | every span `findall` reports is an upper-case letter, non-terminators, then one terminator; spans are ordered and disjoint |
| TextStats.SentenceSpansSpec | src/codelytics/text_analysis.py:130-133 | every span lies within the text after the start position and is a sentence; each span ends at or before the next one starts |
| TextStats.SentencesMatchSegments | src/codelytics/text_analysis.py:130-134 | the number of matches equals a one-pass count of terminators that close a segment containing an upper-case letter |
| TextStats.SentencesAtMostTerminators | src/codelytics/text_analysis.py:130-134 | there are never more sentences than terminators |
| TextStats.NoUpperNoSentence | src/codelytics/text_analysis.py:130 | a text without an upper-case letter has no sentence |
| TextStats.NSentences | src/codelytics/text_analysis.py:107-136 | the loop yields the statistic of the per-text sentence counts |
| NameStats.NewNames | src/codelytics/names.py:26-27 | the names are a set: exactly the names given |
| NameStats.LenAtMostInput | src/codelytics/names.py:29-31 | the length is at most the number of names given, and equal exactly when they are distinct |
| NameStats.Chomp | src/codelytics/names.py:59 | `$` matches at the end or before one final newline |
| NameStats.CamelBodySpec | src/codelytics/names.py:59 | the camel-case pattern accepts a lower-case first letter followed only by letters |
| NameStats.PascalBodySpec | src/codelytics/names.py:99 | the Pascal-case pattern accepts an upper-case first letter followed only by letters |
| NameStats.SnakeBodySpec | src/codelytics/names.py:79 | the snake-case pattern accepts a lower-case first letter, then lower-case letters and single underscores, not ending in `_` |
| NameStats.SimpleBodySpec | src/codelytics/names.py:158 | the simple pattern accepts non-empty lower-case words |
| NameStats.SearchDigitAtEndSpec | src/codelytics/names.py:138-140 | `\d$` is found exactly when the last character, or the one before a final newline, is a digit |
| NameStats.AsciiNameSpec | src/codelytics/names.py:178-180 | the ASCII column holds exactly when the name's non-ASCII count is zero |
| NameStats.CamelSpec | src/codelytics/names.py:46-63 | a camel-case name starts lower-case and holds only letters, bar one final newline |
| NameStats.CamelNotPascal | src/codelytics/names.py:46-103 | no name is both camel case and Pascal case |
| NameStats.SimpleIffCamelAndSnake | src/codelytics/names.py:145-162 | a name is simple exactly when it is both camel case and snake case |
| NameStats.PrivateExcludesConventions | src/codelytics/names.py:106-123 | a private name satisfies none of the letter conventions |
| NameStats.NumberExcludesLetterConventions | src/codelytics/names.py:126-142 | a name ending in a digit is neither camel, Pascal, snake case nor simple |
| NameStats.RowOf | src/codelytics/names.py:184-212 | one row: the length, and columns that agree with the convention lemmas |
| NameStats.Stats | src/codelytics/names.py:184-212 | one row per distinct name, indexed by name |
| Ast.Children | src/codelytics/py.py:219 | every child is structurally smaller than its parent |
| Ast.WalkPermutesPreorder | src/codelytics/py.py:219 | `ast.walk` yields exactly the nodes of the tree, as a multiset, first the root |
| Ast.WalkQueuePermutesPreorder | src/codelytics/py.py:247 | the breadth-first queue yields the nodes of its forest as a multiset |
| Ast.SubtreeIncluded | src/codelytics/py.py:323-325 | the nodes of a subtree are among the nodes of the tree |
| Ast.WalkSum | src/codelytics/py.py:217-221 | a sum over the walk equals the sum over the tree's nodes in any order |
| Ast.WalkSumOfPart | src/codelytics/py.py:323-325 | a non-negative count over a subtree's walk is at most the count over the whole tree |
| Ast.UnionOverMember | src/codelytics/py.py:245-258 | a name is in the union exactly when some node contributes it |
| Ast.WalkUnion | src/codelytics/py.py:247-258 | the set collected along the walk is the set collected over the tree |
| PyCode.NewPy | src/codelytics/py.py:36-47 | FileNotFoundError exactly for a missing path; ValueError for a non-`.py` path; for a `.py` file that cannot be read, the error `read_text` raises (OSError, or ValueError for bytes that are not UTF-8); TypeError for a non-path, non-string source; the content otherwise |
| PyCode.NChar | src/codelytics/py.py:107-116 | the content's length |
| PyCode.NImports | src/codelytics/py.py:198-221 | None exactly when the code does not parse; otherwise the number of import nodes, at most the number of nodes |
| PyCode.TopLevel | src/codelytics/py.py:251 | the part of a dotted name before the first dot |
| PyCode.NImportedModules | src/codelytics/py.py:224-258 | None exactly when the code does not parse; otherwise the number of distinct top-level modules that the imports name |
| PyCode.ModulesOf | src/codelytics/py.py:248-256 | one node adds the first component of each `import` alias, or of a named `from` module, and nothing else |
| PyCode.ImportedModuleMember | src/codelytics/py.py:247-256 | a module is counted exactly when some import names it, and contains no dot |
| PyCode.DottedImportsShareModule | src/codelytics/py.py:250-251 | `import os.path, os` counts one module |
| PyCode.CountComplexityNodes | src/codelytics/py.py:284-306 | the loop's count is the non-negative sum of decision points over the walk and over the tree |
| PyCode.FunctionNodes | src/codelytics/py.py:313-317 | only function definitions of the walk, at most as many as nodes |
| PyCode.Mccabe | src/codelytics/py.py:260-331 | the per-function loop yields the specified complexity statistic |
| PyCode.FunctionComplexities | src/codelytics/py.py:322-326 | the loop gives each function one plus its decision points, in walk order |
| PyCode.FunctionComplexityBounds | src/codelytics/py.py:322-326 | each function's complexity lies between 1 and the whole module's |
| PyCode.McCabeBounds | src/codelytics/py.py:308-331 | the total is at least 1; a mean or median lies between 1 and the total |
| PyCode.Kept | src/codelytics/py.py:596-601 | `self`, `cls` and names starting or ending with `__` are dropped, all others kept |
| PyCode.UserDefinedNames | src/codelytics/py.py:479-601 | no names for code that does not parse; otherwise exactly the names some node defines, less the excluded ones |
| PyCode.NestedTargetsNotCollected | src/codelytics/py.py:553-560 | a nested tuple target of `for` contributes none of its names |
| PyCode.CommentTexts | src/codelytics/py.py:626-630 | at most one text per comment token |
| PyCode.Comments | src/codelytics/py.py:605-632 | no comments for code that does not parse; otherwise the loop yields the kept comment texts |
| PyCode.CommentsStripped | src/codelytics/py.py:629-630 | every comment text is non-empty and already stripped |
| PyCode.KeptCommentStripped | src/codelytics/py.py:629 | the text kept from one comment token is non-empty and already stripped |
| PyCode.CommentDropped | src/codelytics/py.py:629 | a comment is dropped exactly when it is blank once its leading `#`s are removed |
| PyCode.ExtractDocstring | src/codelytics/py.py:655-664 | a docstring found is stripped |
| PyCode.DefinitionDocstring | src/codelytics/py.py:672-676 | at most one docstring per node, and only from a definition |
| PyCode.Docstrings | src/codelytics/py.py:635-678 | the module docstring, if any, followed by the docstrings the loop collects from the definitions in walk order |
| PyCode.CollectDocstrings | src/codelytics/py.py:672-676 | the loop collects exactly the non-empty definition docstrings |
| PyCode.DocstringsSpec | src/codelytics/py.py:650-678 | docstrings are stripped and non-empty; at most one more than the definitions; the module docstring comes first |
| PyCode.DefinitionDocstringsAtMost | src/codelytics/py.py:672-676 | no more docstrings than definitions |
| PyCode.Lloc | src/codelytics/py.py:85-104 | None exactly when radon fails; otherwise the logical lines less one per docstring |
| PyCode.InvalidSyntaxResults | src/codelytics/py.py:214-215 | code that does not parse has no imports, no McCabe result and no docstrings |
| Notebooks.NewNotebook | src/codelytics/notebook.py:20-35 | FileNotFoundError exactly for a missing path; ValueError for a wrong suffix, a file that cannot be opened or decoded, or one that does not parse; otherwise the cells read |
| Notebooks.OfType | src/codelytics/notebook.py:58 | exactly the cells of the given type |
| Notebooks.NCells | src/codelytics/notebook.py:37-58 | all cells without a type; otherwise the number of cells of that type, 0 when there are none |
| Notebooks.CellTypesPartition | src/codelytics/notebook.py:55-58 | the code, markdown and raw counts add up to all cells |
| Notebooks.DistinctTypesAtMostAll | src/codelytics/notebook.py:55-58 | the counts of two types add up to at most all cells |
| Notebooks.Sources | src/codelytics/notebook.py:104-110 | only non-blank sources, at most one per cell of the type |
| Notebooks.ValidCodeSourcesSpec | src/codelytics/notebook.py:89-97 | a source is kept exactly when some cell holding it is non-blank code that parses |
| Notebooks.ValidCodeAtMostSources | src/codelytics/notebook.py:89-97 | the code cells kept are at most the non-blank code cells |
| Notebooks.ExtractCode | src/codelytics/notebook.py:84-99 | the loop joins the kept code cells with a blank line |
| Notebooks.Extract | src/codelytics/notebook.py:60-114 | code gives a `Py`, markdown one text; any other type is a ValueError, and only then |
| Notebooks.MarkdownExtractShape | src/codelytics/notebook.py:101-111 | the markdown result always holds one text, empty exactly when no cell is kept, of the joined length |
| Notebooks.NothingSelectedGivesEmpty | src/codelytics/notebook.py:87-110 | when no cell is kept, the content is empty |
| Dirs.NewDir | src/codelytics/dir.py:41-47 | FileNotFoundError exactly for a missing path; NotADirectoryError exactly for a path that is not a directory |
| Dirs.NCommits | src/codelytics/dir.py:61-96 | RuntimeError outside a repository or when git fails or is missing; otherwise the integer git prints, or ValueError |
| Dirs.NCommitsReadsCount | src/codelytics/dir.py:92 | when git prints a count and a newline, that count is returned |
| Strings.ParseIntOfString | src/codelytics/dir.py:92 | `int` reads back every integer's decimal form |
| Dirs.StripTrailingNewline | src/codelytics/dir.py:92 | the newline `git` prints after the count is removed by `strip()` |
| Strings.StripSpec | src/codelytics/pdf.py:80 | `strip()` returns the part of the string between its leading and its trailing whitespace, which neither starts nor ends with whitespace |
| Strings.StripEmptyIffBlank | src/codelytics/notebook.py:90 | `s.strip()` is empty exactly when `s` is all whitespace |
| Strings.StripIdempotent | src/codelytics/py.py:663 | stripping a stripped string changes nothing |
| Dirs.FilesOf | src/codelytics/dir.py:107-109 | exactly the entries that are files |
| Dirs.FilesOfAppend | src/codelytics/dir.py:107-109 | files keep their enumeration order |
| Dirs.NormaliseSuffix | src/codelytics/dir.py:131-132 | the suffix starts with a dot; one already there is kept |
| Dirs.IterFiles | src/codelytics/dir.py:111-136 | all files without a suffix; otherwise exactly the files with the normalised suffix |
| Dirs.IterFilesDotOptional | src/codelytics/dir.py:131-132 | `py` and `.py` select the same files |
| Dirs.NFiles | src/codelytics/dir.py:138-153 | the number of files iterated, at most all files |
| Dirs.NoMatchingSuffixNoFiles | src/codelytics/dir.py:134-136 | a suffix no file has yields nothing |
| Dirs.NFilesDistinctSuffixes | src/codelytics/dir.py:134-153 | two different suffixes count at most all files together |
| Pdfs.NewPdf | src/codelytics/pdf.py:21-24 | FileNotFoundError exactly for a missing file |
| Pdfs.NPages | src/codelytics/pdf.py:90-108 | the page count, or RuntimeError when the document cannot be read |
| Strings.SkipSpaces | src/codelytics/pdf.py:67 | `\s*` runs to the first non-space character |
| Pdfs.NumberEnd | src/codelytics/pdf.py:67 | the section number runs to the first character that is neither digit nor dot |
| Pdfs.KeywordsAreLowerWords | src/codelytics/pdf.py:47-60 | every keyword is lower-case letters and single inner spaces |
| Pdfs.AnyKeywordAtSpec | src/codelytics/pdf.py:47-60 | the keyword alternation matches exactly when some keyword occurs at the position and only the tail follows it |
| Pdfs.HeadingMatchSpec | src/codelytics/pdf.py:47-68 | the scan accepts a line exactly when it is in the heading language: optional spaces, section number, spaces, a keyword in any case, spaces, colon, spaces |
| Pdfs.ScanDecidesHeading | src/codelytics/pdf.py:66-68 | for any lower-case keyword list, the scan decides the heading language |
| Pdfs.BareKeywordIsHeading | src/codelytics/pdf.py:50 | `References` alone is a heading |
| Pdfs.NumberedKeywordIsHeading | src/codelytics/pdf.py:54-67 | `7. Works Cited:` is a heading |
| Pdfs.LastPageWhereSpec | src/codelytics/pdf.py:73-84 | the page found is the last non-empty page with a heading; none exactly when no page has one |
| Pdfs.ReferencesPage | src/codelytics/pdf.py:70-87 | the backward loop returns that page, or RuntimeError for an unreadable document |
| Pdfs.PageIsReferences | src/codelytics/pdf.py:74-81 | one step of the backward loop: the page is the one found exactly when its text is non-empty and has a heading line |
| Common.AnyOfSpec | src/codelytics/pdf.py:79-81 | "some line passes the test" holds exactly when a line at some position passes it |
| Pdfs.PageHasHeading | src/codelytics/pdf.py:79-81 | a page has a heading exactly when one of its lines, stripped, matches |
| Pdfs.FindHeadingLine | src/codelytics/pdf.py:79-81 | the scan stops at the first heading line, and only at one |
| Pdfs.Range | src/codelytics/pdf.py:139-141 | exactly the integers from lo through hi |
| Pdfs.EntryPagesSpec | src/codelytics/pdf.py:136-143 | an integer ignores its page; `>k` ignores the pages after k; other entries are a ValueError; RuntimeError only when the page count is unreadable |
| Pdfs.IgnoreSetFirstError | src/codelytics/pdf.py:135-143 | the first refused entry decides the error |
| Pdfs.RefusedEntryFails | src/codelytics/pdf.py:142-143 | any refused entry makes the whole call fail |
| Pdfs.PageNumbersIgnored | src/codelytics/pdf.py:136-137 | integer entries ignore exactly their pages |
| Pdfs.CountWords | src/codelytics/pdf.py:110-158 | the ignore set is built entry by entry, then the loop adds the words of the pages not in it |
| Pdfs.BuildIgnoreSet | src/codelytics/pdf.py:133-143 | the loop builds the specified ignore set or stops at the first error |
| Pdfs.SumPageWords | src/codelytics/pdf.py:145-155 | the loop adds the words of every page not ignored |
| Pdfs.IgnoringMoreCountsLess | src/codelytics/pdf.py:148-153 | ignoring more pages never counts more words |
| Pdfs.IgnoringAllCountsNothing | src/codelytics/pdf.py:148-153 | ignoring every page counts no words |
| Pdfs.IgnoringOnePage | src/codelytics/pdf.py:148-153 | ignoring one more page removes exactly its words |
| Pdfs.IgnoringNothingMore | src/codelytics/pdf.py:148-153 | ignored numbers outside the document change nothing |
| Pdfs.IgnoreAfterZero | src/codelytics/pdf.py:138-141 | `>0` ignores every page, so no words are counted |

## Left out

- Halstead metrics, cognitive complexity, `n_functions`, `n_classes` and radon's analysis are not modelled. They are computed by radon and complexipy, whose code is not part of this model. Radon's `lloc` number is a parameter.
- The analysers' I/O is not modelled: file access, `nbformat.read`, the `git` subprocess and `fitz`. Each is a parameter, and each raised exception is one error value.
- The `OSError` subclasses that reading a `.py` file can raise (`IsADirectoryError`, `PermissionError`, ...) are one error value, `OSError`.
- The analysers' property caching is not modelled. Every cached property is a function of the content.
- Python's Unicode behaviour is reduced to ASCII: `str.isspace`, `\s`, `\d`, `str.splitlines`, and `re.IGNORECASE` case folding (which also maps `ſ` and the Kelvin sign, U+212A, onto ASCII letters).
- `int()`'s acceptance of non-ASCII digits is reduced to ASCII in the same way.
- pandas is not modelled: its dtypes, NaN, and the Series or DataFrame wrappers. Means and medians are exact reals, and `stats` is a map from name to row.
- The abstract syntax tree keeps only the node kinds the analysers distinguish. Operators, expression contexts, `TryStar`, `Lambda` and `match` statements are not distinguished.
- `async def`, `async for` and `async with` are modelled by a flag on the synchronous node. Every analyser treats the flag like the synchronous node, except `user_defined_names`, which collects no `async for` targets, as the source does.
- `TypeError` from `pathlib.Path` when given something that is not a path is not modelled for `Notebook` and `Dir`. Their constructors take a path.
- A bool in `ignore_pages` is not modelled. Python's `isinstance(True, int)` makes it ignore page 1 or page 0.
- An `ignore_pages` that is not a list is not modelled.
- `from .pkg import x` counts `pkg` in `n_imported_modules`. Only `from . import x`, which has no module, is skipped. The model keeps this as written.
- `Notebooks.ExtractCode`: the source's `try`/`except` around `Py(cell.source)` can never fire, since a string always builds a `Py`. The model has no such branch.
- `Pdfs.ReferencesPage`: its contract ties the result to `ReferencesPageOf`. That it is the last page with a heading is stated once, generically, by `Pdfs.LastPageWhereSpec`.
- `Pdfs.CountWords`: its contract ties the result to `CountWordsOf`, whose properties are the page-word lemmas. A `ValueError` from `int(item[1:])` comes before the page count is read, as in the source.
- `mccabe()` returns `None` for code that does not parse. Its docstring says 0; the model follows the code.
- `Notebook.extract` is modelled as returning a `Py` or a `TextAnalysis`, as the code does. A test expects a string.
- `is_repo` is modelled as a method, as the code has it. A test uses it as a property, and one takes `len` of a `Dir`.
