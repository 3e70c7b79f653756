# Cats-vs-Dogs data tooling, modelled in Dafny

This project models the file-handling and decision logic of the Cats-vs-Dogs
scripts. It covers three scripts:

- **`separar_dados.py`, the train/validation splitter.** It creates
  `data/validation/{cats,dogs}` and lists the images of each training class
  (`.jpg`, `.jpeg`, `.png`, compared case-insensitively). It shuffles each list
  in place and moves the first fifth of it (`int(n * 0.2)`) to the class's
  validation directory. It counts the moves that succeed and those that fail,
  then recounts every directory.
- **`limpar_imagens.py`, the image cleaner.** For each of four fixed
  directories that exists, it lists the images (`.jpg .jpeg .png .gif .bmp`)
  and checks each one. It deletes the files that do not decode or are smaller
  than 10x10 pixels. It keeps the totals of checked, OK and removed files, and
  prints a removal percentage only when something was removed.
- **`testar_imagem.py`, the inference script.** It names the saved chart after
  the last path segment (split on `/`, then on `\`), prefixed with
  `resultado_`. It turns the model's scalar output into a label, a confidence
  and a certainty tier, and it draws a two-bar chart. It returns early when
  the model or the image fails to load. Its `main` checks the argument count.

The filesystem is a value of type `Tree`, a map from directory path to the set
of file names it holds. It is kept in the field of a `FileSystem` object. The
operations the scripts call are methods on that object: `ListDir`, `Move`,
`Remove` and `MakeDirs`. Everything the scripts get from outside is a
parameter:

- the order `os.listdir` returns, an arbitrary choice;
- the random numbers behind `random.shuffle`, an oracle `draw`;
- whether each `shutil.move` or `os.remove` succeeds;
- what decoding an image yields;
- what loading the model or the image does;
- the model's prediction.

Modules follow the scripts:

- `wrappers.dfy`: `Option`.
- `names.dfy`: file names, the case-insensitive extension rule, and listings.
- `filesystem.dfy`: the abstract filesystem.
- `separar_dados.dfy`: module `SplitData`.
- `limpar_imagens.dfy`: module `CleanImages`.
- `testar_imagem.dfy`: module `TestImage`.

The imperative parts of the scripts are methods with loops. These are the
shuffle, the move loop, the cleaner's nested loops and the listing. Each is
proved against a specification function on the old state. The properties the
scripts promise are proved as lemmas about those functions.

## Model

| member | source | states |
|---|---|---|
| Names.KeepWithExtension | separar_dados.py:35-38 | the filtered listing keeps exactly the names whose lower-cased form ends in one of the extensions, with no duplicates added; its order is stated by the next two lemmas |
| Names.KeepWithExtensionAppend | separar_dados.py:35-38 | filtering a concatenation filters each part and concatenates the results, so the filter keeps the listing's order |
| Names.KeepWithExtensionSingle | separar_dados.py:35-38 | a single name is kept exactly when it has one of the extensions |
| Names.WithExtension | separar_dados.py:35-38 | the images of a directory are exactly its names with one of the extensions |
| Names.Lower | separar_dados.py:36 | lower-casing keeps the length, folds each character on its own, and leaves no ASCII capital |
| Names.HasExtension | separar_dados.py:36 | the rule `name.lower().endswith(extensions)`; `HasExtensionIgnoresCase` states what it promises |
| Names.HasExtensionIgnoresCase | separar_dados.py:36 | the extension rule gives the same answer for a name and its lower-cased form |
| Names.ListingSize | separar_dados.py:99-100 | a duplicate-free listing of a directory has as many entries as the directory has names, so `len(...)` of the listing is the image count |
| Names.KeptListing | limpar_imagens.py:55-56 | filtering a listing of a directory gives a listing of exactly its images, of the same size |
| FileSystemModel.MovedFile | separar_dados.py:73 | a move takes the name out of the source set and puts it into the destination set; no other directory changes and none is created |
| FileSystemModel.RemovedFile | limpar_imagens.py:78 | a deletion takes the name out of its directory and changes nothing else |
| FileSystemModel.WithDir | separar_dados.py:25 | `makedirs(exist_ok=True)` adds the directory empty if it is missing and keeps every existing directory's contents |
| FileSystemModel.FileSystem.ListDir | separar_dados.py:35 | listing gives `None` exactly for a missing directory, otherwise a duplicate-free sequence of exactly its names, in an unspecified order |
| FileSystemModel.FileSystem.Move | separar_dados.py:72-78 | the move succeeds exactly when the environment allows it, both directories exist and the file is present; the tree is updated on success and unchanged on failure |
| FileSystemModel.FileSystem.Remove | limpar_imagens.py:77-82 | the deletion succeeds exactly when the environment allows it and the file is present; the tree is updated on success and unchanged on failure |
| FileSystemModel.FileSystem.MakeDirs | separar_dados.py:25 | the new tree is the old one with the directory present |
| SplitData.TrainDir | separar_dados.py:35-38 | the training directory of the cats is `data/train/cats`, that of the dogs `data/train/dogs` |
| SplitData.ValidationDir | separar_dados.py:70 | the validation directory of the cats is `data/validation/cats`, that of the dogs `data/validation/dogs` |
| SplitData.Images | separar_dados.py:36 | the splitter's images are exactly the names ending in `.jpg`, `.jpeg` or `.png`, ignoring case |
| SplitData.PathFacts | separar_dados.py:11-12 | the training and validation class directories are the expected paths, pairwise different, and the validation ones are among the created folders |
| SplitData.WithFolders | separar_dados.py:18-25 | creating the folders adds exactly the missing ones, empty, and leaves existing directories as they were |
| SplitData.CreateFoldersWhenPresent | separar_dados.py:24-25 | creating folders that all exist changes nothing |
| SplitData.CreateValidationFoldersIdempotent | separar_dados.py:14-28 | running `criar_pastas_validacao` twice gives the same tree as running it once |
| SplitData.CreateValidationFolders | separar_dados.py:14-28 | the loop leaves the tree with the three validation folders created |
| SplitData.CountImages | separar_dados.py:30-51 | `None` exactly when either training class directory is missing, otherwise one duplicate-free listing of exactly the images of each class |
| SplitData.ImageCountOf | separar_dados.py:119-127 | the final recount of an existing directory is the number of its images under the same extension rule |
| SplitData.ValidationCount | separar_dados.py:99-100 | the validation count `k` for `n` files is at most `n` and satisfies `5k <= n < 5k + 5`, that is, one fifth rounded down |
| SplitData.Take | separar_dados.py:61 | the slice `s[:k]` is the prefix of length `min(k, len(s))` |
| SplitData.SelectionHasValidationCount | separar_dados.py:61 | the selected prefix has exactly the validation count |
| SplitData.Swap | separar_dados.py:58 | swapping two entries keeps the multiset of names |
| SplitData.ShuffleSteps | separar_dados.py:58 | each run of the Fisher-Yates swap steps keeps the list's length |
| SplitData.ShuffleStepsPermutes | separar_dados.py:58 | every run of the Fisher-Yates steps keeps the length and the multiset of names, whatever the random draws |
| SplitData.Shuffled | separar_dados.py:58 | the shuffled list has its input's length and is a permutation of it, whatever the draws |
| SplitData.Shuffle | separar_dados.py:58 | the in-place shuffle leaves the array as the Fisher-Yates permutation of its old contents for the given draws, with the same multiset of names |
| SplitData.MovedNames | separar_dados.py:68-79 | the names the move loop moves are selected names that were in the source directory |
| SplitData.ApplyMoves | separar_dados.py:68-73 | after the moves the source has lost exactly the moved names and the destination has gained them; every other directory is unchanged |
| SplitData.ApplyMovesStep | separar_dados.py:73 | one more successful move extends the moved set by that name |
| SplitData.MovedNamesStep | separar_dados.py:72-78 | the next selected name is moved exactly when its move succeeds on the tree reached so far |
| SplitData.MoveSelection | separar_dados.py:65-84 | after the loop `movidos + erros` is the selection's length, `movidos` is the number of names moved, and the tree is the old one with those names moved |
| SplitData.MoveToValidation | separar_dados.py:53-84 | the caller's array ends up a permutation of its input; `movidos + erros` is the prefix length; `movidos <= num_validacao`; the tree has exactly the moved names relocated |
| SplitData.MoveCounts | separar_dados.py:68-73 | moving images out of a directory lowers its image count by the number moved; when the destination held none of them it rises by the same number |
| SplitData.SelectedAreImages | separar_dados.py:58-61 | every moved name is one of the listed images of the training directory |
| SplitData.SwapDistinct | separar_dados.py:58 | a swap keeps a list free of duplicates |
| SplitData.ShuffleStepsDistinct | separar_dados.py:58 | shuffling keeps a list free of duplicates |
| SplitData.AllMovesSucceed | separar_dados.py:68-79 | when every move is allowed, a duplicate-free selection of files of the source is moved in full |
| SplitData.MovedNamesFrame | separar_dados.py:68-79 | which names are moved depends on the tree only through the source directory's files and which directories exist |
| SplitData.EveryMoveSucceeds | separar_dados.py:99-113 | with the validation directory present and every move allowed, exactly the planned number of images is moved |
| SplitData.SplitClass | separar_dados.py:99-113 | for one class, the planned count is one fifth of the image count rounded down; the moved images are exactly those of the shuffled listing's first `num_validacao` names whose moves succeed, at most that many, all training images; when the validation directory exists and every move is allowed, exactly the planned count is moved; the tree moves exactly them |
| SplitData.SplitCounts | separar_dados.py:116-127 | after the split each training directory has lost exactly its moved images; when the validation directory held none of their names it has gained exactly them, so train plus validation is conserved |
| SplitData.Split | separar_dados.py:86-149 | the result is `None` (the source's `False`) exactly when a training directory is missing, and then only the folders were created; otherwise it gives the planned and actual move counts, the resulting tree and the final recounts; each class's moved images are those of the shuffled listing's first `num_validacao` names whose moves succeed, and with every move allowed the actual count equals the planned one |
| CleanImages.CheckImage | limpar_imagens.py:17-36 | `(True, "OK")` exactly for a decoded image with both sides at least 10; `(False, "Imagem muito pequena")` exactly for a decoded smaller one; `(False, message)` for a decode failure |
| CleanImages.Join | limpar_imagens.py:63 | the full path is one longer than the directory and the name together, with a `/` right after the directory |
| CleanImages.JoinParts | limpar_imagens.py:63 | the full path starts with the directory and ends with the name, so it is the directory, a `/`, then the name |
| CleanImages.FateOf | limpar_imagens.py:71-84 | a file is kept exactly when it passes the check, deleted exactly when it fails the check and its removal succeeds, and otherwise stays behind although rejected |
| CleanImages.Listed | limpar_imagens.py:55-56 | the cleaner's images are exactly the names ending in `.jpg`, `.jpeg`, `.png`, `.gif` or `.bmp`, ignoring case |
| CleanImages.AmongMembers | limpar_imagens.py:62-84 | the files of a listing with a given fate are exactly its members with that fate |
| CleanImages.FatePartition | limpar_imagens.py:71-84 | every listed file is kept, deleted or fails to be deleted, so the three counts add up to the number listed |
| CleanImages.CleanOne | limpar_imagens.py:46-90 | the cleaned tree has the same directories as before |
| CleanImages.Cleaned | limpar_imagens.py:46-90 | cleaning several directories keeps the set of directories |
| CleanImages.DirectoriesDistinct | limpar_imagens.py:10-15 | the four visited directories are pairwise different |
| CleanImages.TotalsBalance | limpar_imagens.py:71-84 | `total_ok + total_removidas <= total_verificadas`, with equality exactly when no `os.remove` failed |
| CleanImages.CheckStep | limpar_imagens.py:62-84 | one inner iteration adds one to `total_verificadas` and keeps the set of directories |
| CleanImages.CheckAll | limpar_imagens.py:62-84 | the inner loop over a listing adds its length to `total_verificadas` and keeps the set of directories |
| CleanImages.CheckStepEffect | limpar_imagens.py:62-84 | one inner iteration counts the file, then counts a valid file as OK, or deletes a rejected file and counts the removal, or only counts a file whose deletion fails |
| CleanImages.CheckAllEffect | limpar_imagens.py:62-84 | over a listing, `total_verificadas` rises by its length, `total_ok` by the number of files kept, and `total_removidas` and `removidas_neste_dir` by the number deleted; exactly the deleted files leave the directory |
| CleanImages.CheckFiles | limpar_imagens.py:62-84 | the inner loop's counters and tree are those of the step-by-step specification over the listing |
| CleanImages.CleanDirectory | limpar_imagens.py:46-90 | a missing directory is skipped: nothing is counted, the report is `Missing` and the tree is unchanged; otherwise the report, the totals and the tree are those of checking all its listed images |
| CleanImages.ReportsOver | limpar_imagens.py:86-90 | there is one report per visited directory, each determined by the initial tree |
| CleanImages.ReportAgreesWithTotals | limpar_imagens.py:47-90 | a skipped directory reports nothing and adds nothing to the totals; a checked one reports the file and removal counts it adds |
| CleanImages.ReportsSumToTotals | limpar_imagens.py:60-90 | the per-directory file counts sum to `total_verificadas` and the per-directory removals to `total_removidas` |
| CleanImages.Percentage | limpar_imagens.py:100-102 | the removal percentage is greater than 0 and at most 100 |
| CleanImages.CleanEach | limpar_imagens.py:46-90 | the outer loop's totals, per-directory figures and tree are those of cleaning the four directories in order |
| CleanImages.FinalCounts | limpar_imagens.py:111-115 | the final count has one entry per directory: none for a missing one, otherwise the number of its images under the cleaner's rule |
| CleanImages.FinalCountsMatchReports | limpar_imagens.py:86-115 | on the cleaned tree, a directory is counted exactly when it was checked, and its count is its `Total de arquivos` minus its `Removidas` |
| CleanImages.CleanDirectories | limpar_imagens.py:38-115 | the final totals, per-directory figures and tree are those of cleaning the four directories in order; the percentage is computed exactly when something was removed, and then `0 < total_removidas <= total_verificadas`; the final count of each checked directory is its listed files minus its removals, and a missing directory gets none |
| CleanImages.RemovedExactly | limpar_imagens.py:73-84 | a file disappears exactly when it is a listed image of a visited directory that fails the check and whose deletion succeeds; a file judged OK is still present |
| CleanImages.RemainingImagesAreValid | limpar_imagens.py:71-84 | when no deletion failed, every image left in a visited directory decodes and is at least 10x10 |
| CleanImages.RemainingMatchesFinalCount | limpar_imagens.py:111-115 | for an existing directory the removals never exceed the files listed, and the final count equals `len(arquivos) - removidas_neste_dir` |
| TestImage.SplitOn | testar_imagem.py:103 | `str.split` yields at least one piece |
| TestImage.PiecesLackSeparator | testar_imagem.py:103 | no piece of `str.split(c)` contains `c` |
| TestImage.JoinSplit | testar_imagem.py:103 | joining the pieces with the separator gives back the string |
| TestImage.AfterLast | testar_imagem.py:103 | the part after the last separator is never longer than the string |
| TestImage.AfterLastShape | testar_imagem.py:103 | the part after the last separator is a separator-free suffix, the whole string when there is no separator, and preceded by a separator whenever it is shorter |
| TestImage.LastPieceIsAfterLast | testar_imagem.py:103 | `s.split(c)[-1]` is the part of `s` after its last `c` |
| TestImage.LastPiece | testar_imagem.py:103 | `s.split(c)[-1]` is the part after the last `c` |
| TestImage.AfterLastTwice | testar_imagem.py:103 | splitting on one character and then another leaves a suffix with neither, preceded by one of them whenever it is shorter |
| TestImage.LastSegment | testar_imagem.py:103 | the last path segment is never longer than the path |
| TestImage.LastSegmentShape | testar_imagem.py:103 | the last segment has neither `/` nor `\`, is a suffix of the path, and is preceded by a separator whenever it is shorter than the path |
| TestImage.OutputName | testar_imagem.py:103 | the chart's file name is `resultado_` followed by the last segment of the path |
| TestImage.OutputNameEdgeCases | testar_imagem.py:103 | a path without separators becomes `resultado_` plus the whole path; a path ending in a separator becomes just `resultado_` |
| TestImage.Classify | testar_imagem.py:45-52 | the label is dog exactly when the prediction exceeds 0.5, with confidence `p * 100` and a brown title; otherwise cat with `(1 - p) * 100` and an orange title |
| TestImage.ConfidenceBounds | testar_imagem.py:45-52 | for a prediction in [0, 1] the confidence lies in [50, 100], reaching 50 only at 0.5 |
| TestImage.CertaintyOf | testar_imagem.py:61-68 | the tier is very high above 90, high above 70, moderate above 50 and low otherwise |
| TestImage.LowOnlyAtHalf | testar_imagem.py:45-68 | for a prediction in [0, 1] the low tier occurs exactly at 0.5 |
| TestImage.ChartOf | testar_imagem.py:84 | the two bars sum to 100 and are non-negative for a prediction in [0, 1] |
| TestImage.ChartAgreesWithVerdict | testar_imagem.py:45-84 | the confidence is the bar of the chosen label, which is the taller one |
| TestImage.RunTest | testar_imagem.py:7-105 | a model load failure is reported first, then an image load failure; otherwise the verdict, tier, chart and output name come from the prediction and the path |
| TestImage.FailureIgnoresPrediction | testar_imagem.py:17-32 | when either load fails the outcome does not depend on the prediction, and no prediction is reported |
| TestImage.RunMain | testar_imagem.py:109-125 | with fewer than two arguments only the usage is shown; otherwise `argv[1]` is tested with the default model path |

## Left out

- Console output is not modelled: every `print`, the progress messages every 100 or 500 files, and the `:.2f` and `:.1f` formatting. The model returns the figures the scripts print instead, including the final recounts of both scripts.
- `classificador.py` is not part of this model. It is a fixed Keras layer stack, training, saving and plotting.
- PIL, Keras and matplotlib are oracles. Decoding gives a failure message or a size. Loading gives success or a message. The prediction is an exact `real`. Resizing to 150x150, the `/ 255.0` scaling, `imshow`, `savefig` and `show` are left out.
- `random.shuffle` is modelled as CPython's Fisher-Yates loop driven by an arbitrary sequence of draws, so any permutation it can produce is covered. Its probability distribution is not modelled.
- Real filesystem semantics are abstract set updates. A move or a deletion may fail for any reason the environment chooses. Cross-device moves and permissions are not modelled. A move onto an existing destination file replaces it, as POSIX `rename` does; the set of names simply gains the name. `makedirs` does not track parent directories.
- Paths are compared as strings. `os.path.exists` and `os.path.join` are map membership and `dir + "/" + name`. The model does not distinguish a file from a directory, so `os.listdir` on a path that is a file is not modelled.
- SplitData.ImageCountOf: requires the directory to exist. In the source, `os.listdir` on a missing directory at the recount raises `FileNotFoundError`, which only the top-level handler (separar_dados.py:152-160) catches. `Split` calls it only on the four directories, which exist by then.
- SplitData.ValidationCount: `int(n * 0.2)` is modelled as `n / 5`. For counts below 2^52 the float product stays below 2^50, where doubles are at most 1/8 apart, so truncating it gives this value. Larger counts can round up to one more, and that floating-point rounding is not modelled.
- Names.Lower: lower-casing is modelled for ASCII letters only. Python's full Unicode case mapping is not modelled.
- TestImage.Classify: the confidence is computed in exact reals, not floating point.
- CleanImages.Percentage: the percentage is an exact real, not a float.
- `KeyboardInterrupt` handling, the catch-all `except Exception` around `main`, and the traceback printing are not modelled.
- `SplitData.Split` returns `Option<Report>` where the source returns `False` or `True`. `None` stands for `False`; `Some` stands for `True` together with the printed figures. The failed-move count `erros` is returned by `MoveSelection` and `MoveToValidation`, although the source only prints it.
- The chart-labelling loop of `testar_imagem.py` (lines 93-97) only places text on the plot, and is left out.
- The expression on line 103 of `testar_imagem.py` puts a backslash inside an f-string replacement field. Python accepts that only from version 3.12 on. The model gives the meaning the expression has there.
- `CleanImages.RemainingImagesAreValid` needs the assumption that no deletion failed. A file whose `os.remove` fails stays behind although it is invalid, so "every remaining image is valid" holds only under that assumption.
