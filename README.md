# Keyword indexer, modelled in Dafny

This is a model of the counting pipeline of the Key Word Indexer desktop tool (`main.py`). The tool keeps a base directory that holds 26 letter folders, `A` to `Z`. It lists every `.txt` file below those folders, at any depth. It reads a keyword list from `KeyList.txt`, one keyword per line. For each keyword it counts the occurrences across all listed files, using Python's `str.count`. "Show Statistics" then shows a dialog with one `word: N` line for each keyword selected in the list box.

These are the modules, in order of dependency:

| file | module | models |
|---|---|---|
| `wrappers.dfy` | `Wrappers` | `Option`, for an absent file or an uncaught exception |
| `pystr.dfy` | `PyStr` | the Python `str` operations the code relies on, each with a partner: `str.count` (proved against a repeated-word reference, `CountRepeat`), `str.strip`, `str.endswith`, `readlines()`, `sep.join` (with `str.split` as its inverse) and `str(n)` (with decimal parsing as its inverse) |
| `messages.dfy` | `Messages` | the `messagebox` dialogs, as values |
| `enumerator.dfy` | `Enumerator` | `directory_exists`, POSIX `os.path.join` and `list_txt_files` |
| `keyword_loader.dfy` | `KeywordLoader` | `read_key_words` |
| `indexer.dfy` | `Indexer` | `create_index` |
| `statistics.dfy` | `Statistics` | `show_statistics` after the list box has been read |

The model passes in everything the code gets from the outside world:
- The directory tree is a function from a path to `None` (not an existing directory) or `Some(entries)`. The entries are the `(root, dirs, files)` triples that `os.walk` yields for that path, in the order it yields them.
- Reading a text file is a function from its path to its decoded text, after text-mode newline translation (`\r\n` and `\r` read as `\n`). The translation changes the text's length, and with it the count of the empty keyword.
- The keyword file is `None` when `KeyList.txt` is missing. Otherwise it is the file's text after text-mode newline translation.
- The list box selection and the saved base directory are plain parameters.

The main results:
- `create_index` ends with exactly the distinct keywords as keys. Each keyword's count is its multiplicity in the keyword list times its total count across the files. A keyword listed twice therefore reports twice its real count. This is what the code does, and the model keeps it.
- `str.count` is modelled as Python defines it: left to right, non-overlapping, and `|s| + 1` for the empty keyword. A blank line in `KeyList.txt` is such an empty keyword.
- `list_txt_files` lists exactly the `.txt` files under the existing letter folders. They come grouped by letter from A to Z, and in walk order within a letter.
- A selected word that is no longer a keyword makes `show_statistics` raise `KeyError`. This happens when `KeyList.txt` changed, or disappeared, after the list box was filled. In that case no statistics dialog opens. The model returns the exception's key as the `uncaught` part of its `Report`.

Each loop of the code is a method with its own contract. Where loops are nested, the inner loop is a separate method and the outer method loops over it:
- `ListTxtFiles` → `AppendWalkTxtFiles` → `AppendTxtFiles`;
- `CreateIndex` → `AddFileCounts`.

`ShowStatistics` has no loop of its own; it calls `FormatStatistics`, the loop of main.py:87-89.

Each method's `ensures` ties its result to a specification function. The lemmas beside them prove what those functions mean.

## Model

| member | source | states |
|---|---|---|
| PyStr.Count | main.py:51 | `content.count(word)`: a non-empty keyword's occurrences, times its length, fit in the text; the empty keyword counts `|s| + 1` |
| PyStr.CountPositiveIff | main.py:51 | a non-empty keyword has a positive count exactly when it occurs somewhere in the text |
| PyStr.CountRepeat | main.py:51 | a text made of `k` copies of the keyword counts `k`, so matches are whole and do not overlap |
| PyStr.CountExamples | main.py:51 | `count("catcat","cat") = 2`, `count("aaaa","aa") = 2`, `count("category","cat") = 1`, `count("abc","") = 4` |
| PyStr.Strip | main.py:40 | `line.strip()`: the result is the input with only whitespace (Python's full `isspace` set) before and after it, and the result neither starts nor ends with whitespace |
| PyStr.StripIdempotent | main.py:40 | stripping a stripped line changes nothing |
| PyStr.EndsWith | main.py:29 | `name.endswith('.txt')`: the name is at least as long as the suffix, and its last characters are the suffix |
| PyStr.EndsWithIff | main.py:29 | the independent reading: a string ends with a suffix exactly when some tail of it is that suffix |
| PyStr.EndsWithAppend | main.py:29 | a suffix of the last part is a suffix of the whole |
| PyStr.ReadLines | main.py:40 | `readlines()`: the lines concatenate back to the text; no line is empty; every line except the last ends in `'\n'`; no line has `'\n'` anywhere but at its end |
| PyStr.Join | main.py:91 | `"\n".join` of a single line is that line |
| PyStr.Split | main.py:91 | the partner of join: at least one piece, and no piece contains the separator |
| PyStr.SplitJoin | main.py:91 | splitting a join of separator-free lines at the separator gives back the lines |
| PyStr.Decimal | main.py:89 | `str(n)`: non-empty, all decimal digits, no leading zero |
| PyStr.ParseDecimalOfDecimal | main.py:89 | the digits of a count parse back to the count |
| Enumerator.DirectoryExists | main.py:18-19 | `directory_exists`, the abstract predicate over the directory-tree input: the empty path never exists (`os.path.exists('')` is false), and any other path is an existing directory exactly when the filesystem has a walk for it. It is a definition with no contract; `Enumerator.LetterTxtFiles` and `Enumerator.ListedIff` state what it decides |
| Enumerator.PathJoin | main.py:24 | POSIX `os.path.join`: for a relative second part, the result starts with the first part; its length is at most the two lengths plus the separator |
| Enumerator.PathJoinEndsWith | main.py:30 | joining keeps the suffix of the file name, so the joined path of a `.txt` name ends in `.txt` |
| Enumerator.LetterFolder | main.py:24 | `os.path.join(base_directory, letter)`: the base directory, then the letter as the last character, with one `/` between them when the base is non-empty and does not end in `/`, and nothing between them otherwise |
| Enumerator.LetterFoldersDistinct | main.py:23-24 | different letters give different folders, so no folder is walked twice |
| Enumerator.TxtFilesIn | main.py:28-31 | within one directory, no more paths are kept than there are names |
| Enumerator.TxtFilesInMembers | main.py:28-31 | within one directory, a path is kept exactly when it is the root joined with a name ending in `.txt` |
| Enumerator.LetterTxtFiles | main.py:26-34 | a letter folder that is not an existing directory contributes nothing |
| Enumerator.TxtFilesUnder | main.py:23-34 | the reference listing: for each letter in turn, the `.txt` paths of that letter folder's walk, or nothing when it is not an existing directory, all concatenated. It has no contract; `Enumerator.ListedIff` and `Enumerator.ListedByLetter` prove what it means |
| Enumerator.ListTxtFiles | main.py:21-35 | `list_txt_files(base)` is the letter-by-letter concatenation of the walk listings, and every listed path ends in `.txt` |
| Enumerator.AppendWalkTxtFiles | main.py:27-31 | walking one letter folder appends that walk's `.txt` paths to the list, in walk order |
| Enumerator.AppendTxtFiles | main.py:28-31 | one walked directory appends its `.txt` paths to the list, in name order |
| Enumerator.ListedIff | main.py:23-31 | a path is listed exactly when some existing letter folder's walk yields a directory whose file name ends in `.txt` and joins to that path, at any depth |
| Enumerator.ListedAreTxt | main.py:29-31 | only `.txt` files are listed |
| Enumerator.TxtFilesUnderAppend | main.py:23 | the files of earlier letters all come before those of later letters |
| Enumerator.ListedByLetter | main.py:23-35 | the listing is the listing of the letters before a letter, then that letter's files, then the listing of the letters after it |
| Enumerator.NoLetterFolders | main.py:33-35 | a base directory without letter folders lists nothing |
| KeywordLoader.StripAll | main.py:40 | one stripped entry per line, in order |
| KeywordLoader.ReadKeyWords | main.py:37-43 | a missing `KeyList.txt` gives no keywords and one error dialog; otherwise there are no dialogs, one keyword per line, and keyword `i` is line `i` stripped, so order, duplicates and blank entries are kept |
| KeywordLoader.StrippedLineHasNoBreak | main.py:40 | a stripped line is left with no line break |
| KeywordLoader.KeyWordsAreTrimmed | main.py:37-43 | every loaded keyword is one line without surrounding whitespace |
| KeywordLoader.ReadKeyWordsExample | main.py:37-43 | the text `"cat\n\ncat"` loads as `["cat", "", "cat"]`; a missing file loads as nothing, with the error dialog |
| Indexer.CreateIndex | main.py:45-52 | `create_index`: the keys are exactly the distinct keywords; each count is the keyword's multiplicity in the list times its total `str.count` across the files; no count is negative |
| Indexer.AddFileCounts | main.py:50-51 | one file's pass adds, to every slot, its keyword's multiplicity times its count in that file, and changes no keys |
| Indexer.IndexOf | main.py:45-52 | the closed form of `create_index`: exactly the distinct keywords as keys, and no count negative |
| Indexer.NoFilesAllZero | main.py:46-52 | with no files every keyword maps to its initial 0 |
| Indexer.CountsGrow | main.py:47-51 | a keyword's total count never decreases as more files are read |
| Indexer.IndexGrows | main.py:47-51 | no slot of the index decreases as more files are read, and none is negative |
| Indexer.DistinctMultiplicity | main.py:50-51 | a keyword that is listed once has multiplicity 1 |
| Indexer.DistinctKeywordsPlainSum | main.py:50-51 | with no duplicate keywords, each count is the plain sum of counts over the files |
| Indexer.TwoFilesExample | main.py:45-52 | the files `"cat dog cat"` and `"dog"` with the keywords cat and dog give `{cat: 2, dog: 2}` |
| Indexer.DuplicateKeywordExample | main.py:46-51 | `"catcat"` with the keyword list cat, cat gives `{cat: 4}` |
| Indexer.CountCatDogCat | main.py:51 | cat occurs twice in `"cat dog cat"` and dog once |
| Statistics.StatLine | main.py:89 | `f"{word}: {count}"` is the word, then `": "`, then only digits with no leading zero (a `0` is the whole number), which parse back to the count |
| Statistics.StatLines | main.py:86-89 | one line per selected word, the line at position `i` for the word at position `i` |
| Statistics.FirstMissing | main.py:87-89 | the first selected word that is not an index key: every earlier word is a key, and the word at that position is not |
| Statistics.StatisticsReport | main.py:74-92 | the outcome as a function of the inputs: an escaping `KeyError` names a selected word that the re-read keyword file lacks; when nothing escapes, the last dialog is the warning or the statistics |
| Statistics.ShowStatistics | main.py:74-92 | `show_statistics` opens the dialogs, and raises the `KeyError`, that the report function gives for these inputs |
| Statistics.FormatStatistics | main.py:86-89 | the loop stops at the first word that is not an index key; when every word is a key, it builds all the lines in selection order |
| Statistics.EmptySelectionOnlyWarns | main.py:77-79 | an empty selection opens only the warning and raises nothing |
| Statistics.KeyErrorIff | main.py:83-89 | nothing is raised exactly when every selected word is a keyword of the re-read file; otherwise the exception names the first selected word that is not |
| Statistics.AnsweredReport | main.py:83-92 | when every selected word is a keyword, the loader's dialogs are followed by the statistics dialog holding the joined lines, and nothing is raised |
| Statistics.StatisticsMessageLines | main.py:86-92 | the message splits at line breaks into one line per selected word, in selection order, each giving the word's multiplicity times its total count across the listed files |
| Statistics.MessageSplitsIntoLines | main.py:91 | the joined message splits back into its lines |
| Statistics.StatLineHasNoBreak | main.py:89 | the line of a word with no line break has no line break |
| Statistics.MissingKeyListFails | main.py:83-89 | without `KeyList.txt`, a non-empty selection opens the error dialog, then raises `KeyError` for the first selected word |

## Left out

- The Tk and ttkbootstrap window, its styling and event loop, and the list box reading and filling (main.py:94-135, 75-76): these are user interface. The selection is a parameter.
- `save_directory` and `load_directory` (main.py:7-16): a `configparser` store of one key. The saved base directory is a parameter.
- `browse_directory` and `update_file_list` (main.py:54-72): a file dialog and list box updates. The listing they show is `list_txt_files`, which is modelled.
- The debug `print` calls (main.py:25, 32, 34, 63, 66, 70, 72): console output only.
- The real filesystem:
  - `os.walk` and `os.path.exists`/`isdir` are the directory-tree input;
  - file opening and UTF-8 decoding are the file-contents input;
  - a read or decoding error, which the code does not catch, is not modelled.
- Text-mode newline translation when reading `KeyList.txt` is taken as already done: `\r\n` and `\r` count as `\n` before `readlines()`.
- Enumerator.PathJoin: models POSIX `os.path.join` only, not the Windows rules for drives and backslashes.
- The unused `count = sum(...)` on main.py:88. It reads `index[w]` for every selected word on the first pass, so it raises `KeyError` for the first selected word that is not a key. That is the same key, with the same dialogs shown, as the line-by-line loop, so the model leaves the sum out and raises at the word itself.
- `str(n)` is modelled for non-negative counts only. All counts are non-negative (`Indexer.CreateIndex`).
- Splitting nested loops into helper methods is only a proof device. Each helper is the corresponding inner loop, unchanged.
