# TLS utilities: a verified model of the deterministic core

The TLS repository analyses single-cell data of trunk-like structures. The
numerical work (clustering, PAGA, diffusion pseudotime, UMAP) happens in
scanpy. Around those calls the repository has five small pieces of logic
that decide what data is used, where results go and what gets installed.
This project models those five pieces in Dafny and proves what each one
promises:

- **Configuration** (`configs/config_manager.py`, module `Configs`). The
  parsed `config.json` is a JSON tree. Each string in it that starts with
  `./` is rebased onto the project root, which is the parent of the
  configuration directory. The manager exposes the sections `data`,
  `plotting` and `plots`. `os.path.dirname` and `os.path.join` are modelled
  with their POSIX behaviour.
- **Gene-set assets** (`data/assets/assets_manager.py`, module `Assets`).
  Only `.txt` files count, and files whose names start with `._` are
  skipped. A file's name becomes an attribute name: drop the `.txt` and
  turn each `-` into `_`. Its lines are stripped and blank lines dropped.
  When two files map to the same name, the one visited last wins.
  `all_assets` lists the loaded names in sorted order, leaving out private
  names. The directory walk is an input: a sequence of directories, each
  with its files, and each file with its lines or a decoding failure.
- **The `tls` AnnData accessor** (`src/tls_utils/anndata_extensions.py`,
  module `AnnDataExtensions`).
  - The `obs` table is modelled column by column, together with the
    categories of its categorical columns. `uns` is a map.
  - `AnnDataObj` is a class, so the `.copy()` calls show up as fresh objects,
    while assignment mutates the shared object in place.
  - The accessor class implements `_query`, `query_clusters`,
    `query_timepoints`, `exclude_clusters`, `_assign`, `assign_obs`,
    `assign_uns` and `copy`.
  - It also implements the parsing of timepoint labels such as
    `Organoid_120h`, and the data side of `pagapath_hmap`: the `distance`
    column, the keyword-argument merge, the refusal of a keyword given twice
    to `paga_path`, and the CSV export.
- **Plot defaults and export** (`src/tls_utils/plotting.py`, modules
  `PlotKwargs`, `Plotting` and `ResultsExport`). Five keyword defaults are
  set one at a time, each only where the caller gave none. The save path is
  an explicit path, or else `./reports/results/pagapath_<name>.csv`. An
  existing file is never overwritten, and a missing parent directory is
  created. The file system is a set of existing paths, and paths are parsed
  the way `pathlib` parses them.
- **R install script** (`src/tls_utils/venv_setup.py`, module `VenvSetup`).
  This is the text generation inside `TLSEnvBuilder.setup_r`.
  - The script starts with a CRAN-mirror line.
  - Each `package,source` requirement line then emits zero, one or two R
    lines.
  - A line that does not unpack into exactly two fields raises an error,
    and processing stops there. What was already written stays in the file.

`PyStr` models the Python `str` operations these rely on: `isspace`,
`strip`, `split` on one character, `join`, single-character `replace`, and
code-point order for `sorted`. `Wrappers` holds `Option`, `Result` and
`Outcome`. Python exceptions are modelled as error values: a `Result` or
`Outcome` that carries the exception's cause.

## Model

| member | source | states |
|---|---|---|
| Configs.PathJoin | configs/config_manager.py:28 | `os.path.join(a, b)`: an absolute `b` is the result; otherwise the result is `a + b` when `a` is empty or ends in '/', and `a + "/" + b` when it does not |
| Configs.Dirname | configs/config_manager.py:27 | `os.path.dirname(p)` is the part of `p` up to and including its last '/', with the trailing slashes removed unless that part is all slashes; it is empty when `p` has no '/' |
| Configs.ResolveString | configs/config_manager.py:26-31 | a string starting with "./" becomes the join of the base path's parent with the rest; any other string is returned unchanged |
| Configs.Resolve | configs/config_manager.py:22-31 | resolution keeps the kind of every value; an object keeps exactly its keys; values that are neither objects nor strings (lists included) are returned unchanged |
| Configs.ResolveDict | configs/config_manager.py:23-24 | an object keeps exactly its keys, and each value is the resolution of the old value |
| Configs.ResolveRelative | configs/config_manager.py:26-28 | `"./" + rest` resolves to `join(dirname(base_path), rest)` |
| Configs.ResolvePreservesShape | configs/config_manager.py:22-31 | with every string blanked out, the resolved tree equals the original: the nesting structure is preserved |
| Configs.ResolveNoRelative | configs/config_manager.py:26-31 | a tree with no "./" string (outside lists) is returned exactly as it is |
| Configs.ResolveStringIdempotent | configs/config_manager.py:26-31 | rebasing a string twice gives the same result as rebasing it once, when the project root is non-empty and does not start with "./" |
| Configs.JoinedOntoRoot | configs/config_manager.py:27-28 | a string joined onto a root that is not "./"-relative starts with "./" again only when the root is ".", and then rebasing it reproduces it |
| Configs.ResolveStringEmptyRootNotIdempotent | configs/config_manager.py:26-28 | an empty project root breaks idempotence: "././x" becomes "./x", which becomes "x" |
| Configs.ResolveIdempotent | configs/config_manager.py:22-31 | under the same condition on the root, resolving an already-resolved tree changes nothing |
| Configs.LoadDataConfigs | configs/config_manager.py:19-20 | a document that is not an object, a missing section, and a section that is not an object each fail with their own error, both ways; on success the section's keys are kept and each value is resolved |
| Configs.LoadDataConfigsIsResolve | configs/config_manager.py:19-20 | a loaded section equals the resolved section object |
| Configs.LoadAll | configs/config_manager.py:16-17 | a successful load exposes exactly the sections named; `LoadAllSpec` and `LoadAllPrefixErr` state when it succeeds and which error wins |
| Configs.LoadAllPrefixErr | configs/config_manager.py:16-17 | once a section fails, loading fails with that first error, whatever sections come after |
| Configs.LoadAllSpec | configs/config_manager.py:16-17 | loading succeeds exactly when every section loads, and then exposes exactly those sections, each as `_load_data_configs` returns it |
| Configs.ConfigManager.Create | configs/config_manager.py:8-17 | construction fails with the first section error; otherwise it yields a new manager whose sections are the loaded ones |
| Configs.CreateSections | configs/config_manager.py:16-20 | the manager is built exactly when the document is an object holding `data`, `plotting` and `plots` as objects; it then exposes exactly those three keys, each the resolved section |
| Assets.AttrName | data/assets/assets_manager.py:23-24 | the attribute name is 4 characters shorter than the file name, holds no '-', and is the file name with every '-' turned into '_' |
| Assets.AttrNameOfStem | data/assets/assets_manager.py:23-24 | a stem without hyphens is its own attribute name |
| Assets.SetAttrError | data/assets/assets_manager.py:28 | storing a list fails exactly for `all_assets` (a read-only property) and `__weakref__` (`AttributeError`), and for `__dict__` and `__class__` (`TypeError`); the error names the attribute |
| Assets.IsAssetFile | data/assets/assets_manager.py:22 | a file is an asset exactly when its name ends in `.txt` and does not start with `._` |
| Assets.CleanedSpec | data/assets/assets_manager.py:28 | a line contributes nothing exactly when it is all whitespace; otherwise it contributes its stripped text, which is non-empty and already stripped |
| Assets.LineListClean | data/assets/assets_manager.py:28 | no stored entry is empty or has surrounding whitespace |
| Assets.LineListSingle | data/assets/assets_manager.py:28 | one line yields its stripped text, or nothing when it is blank |
| Assets.LineList | data/assets/assets_manager.py:28 | the stored list has at most one entry per line; `LineListClean`, `LineListSingle` and `LineListConcat` state its entries and their order |
| Assets.LineListConcat | data/assets/assets_manager.py:28 | lines are cleaned independently and kept in their original order |
| Assets.FilesConcat | data/assets/assets_manager.py:20-21 | the walk's files are visited directory by directory, each directory's files in order |
| Assets.FilesEach | data/assets/assets_manager.py:20-21 | the files visited are exactly the files of the walk's directories: each of them, and nothing else |
| Assets.Visit | data/assets/assets_manager.py:22-28 | visiting one file only adds or replaces attributes, and its only errors are for the names `setattr` refuses; `VisitSpec` gives each case |
| Assets.VisitSpec | data/assets/assets_manager.py:22-28 | a file that is not an asset, or cannot be decoded, changes nothing; an asset file fails exactly when its attribute name is `all_assets`, `__weakref__`, `__dict__` or `__class__`, with that name's error, and otherwise stores its line list under that name and leaves every other name as it was |
| Assets.HyphenatedDunderFails | data/assets/assets_manager.py:22-28 | through the hyphen replacement, `--dict--.txt` maps to `__dict__` and fails with `TypeError`, whatever was loaded before |
| Assets.VisitAll | data/assets/assets_manager.py:20-28 | visiting the files in order only adds or replaces attributes, and every possible error names an attribute `setattr` refuses |
| Assets.VisitAllErrExtends | data/assets/assets_manager.py:20-28 | once loading has failed, later files change nothing |
| Assets.VisitAllFails | data/assets/assets_manager.py:22-28 | loading fails exactly when some readable asset file maps to `all_assets`, `__weakref__`, `__dict__` or `__class__` |
| Assets.VisitAllLastWins | data/assets/assets_manager.py:24-28 | the value of a name is the list from the last file that maps to it; a name no file maps to keeps its old value, or stays absent |
| Assets.AssetsManager.AllAssets | data/assets/assets_manager.py:11-16 | the listed names are strictly increasing and are exactly the loaded names that do not start with '_' and are not `assets_dir`, `_load_assets` or `all_assets` |
| Assets.AssetsManager.VisitFile | data/assets/assets_manager.py:22-30 | visiting one file stores what the single-file step gives; when that step fails, the error is reported and the attributes are left as they were |
| Assets.AssetsManager.LoadAssets | data/assets/assets_manager.py:18-30 | after the loop, the attributes are those of visiting every file of the walk in order; on failure the first error is reported and the attributes are those loaded from the files before the failing one |
| Assets.StopsAt | data/assets/assets_manager.py:20-30 | a file failing part-way through the walk is the failure of the whole walk, and what was loaded before it is what the files before it give |
| Assets.AssetsManager.Create | data/assets/assets_manager.py:6-8 | a new manager holds the directory and the attributes loaded from an empty start, or construction fails with the loading error |
| ResultsExport.ParsePath | src/tls_utils/plotting.py:56-57 | `Path(s)` is absolute exactly when `s` starts with '/', and none of its parts is empty, ".", or contains '/'; `ParseJoined` and `ParseJoinedAbsolute` give its value on joined paths |
| ResultsExport.CleanPlain | src/tls_utils/plotting.py:56-57 | parts that are neither empty nor "." and hold no '/' are all kept, in order |
| ResultsExport.ParseJoined | src/tls_utils/plotting.py:56-57 | any such parts joined by '/' parse back to the relative path made of exactly those parts |
| ResultsExport.ParseJoinedAbsolute | src/tls_utils/plotting.py:56-57 | the same parts after a leading '/' parse back to the absolute path made of exactly those parts |
| ResultsExport.Parent | src/tls_utils/plotting.py:62 | the parent drops the last part and keeps absoluteness; "." and "/" are their own parents |
| ResultsExport.Lineage | src/tls_utils/plotting.py:63 | `mkdir(parents=True)` may create exactly the path and its non-root ancestors |
| ResultsExport.FileSystem.Exists | src/tls_utils/plotting.py:59-62 | `exists()` holds for the working directory and the root, and otherwise exactly for the paths present |
| ResultsExport.FileSystem.MakeDirs | src/tls_utils/plotting.py:63 | `mkdir(parents=True)` adds the path and all its non-root ancestors, and nothing else |
| ResultsExport.FileSystem.WriteFile | src/tls_utils/plotting.py:65 | `to_csv` adds exactly the written file |
| ResultsExport.SavePathFor | src/tls_utils/plotting.py:51-54 | an explicit save path wins; otherwise the file is `./reports/results/pagapath_<stem>.csv`, where the stem is `name` if given and the nodes joined by '_' otherwise |
| ResultsExport.ParseInResultsDir | src/tls_utils/plotting.py:54-57 | a slash-free file name in `./reports/results/` parses to the relative path `reports/results/<file>` |
| ResultsExport.DefaultTarget | src/tls_utils/plotting.py:51-57 | a default save path is `reports/results/pagapath_<stem>.csv` relative to the working directory, when the name (or every node name) has no '/' |
| ResultsExport.SaveCsv | src/tls_utils/plotting.py:56-65 | an existing target fails with `FileExistsError` and leaves the file system unchanged; otherwise the missing parent directories and then the file are created, and nothing else |
| PlotKwargs.Update | src/tls_utils/anndata_extensions.py:193 | `d.update(other)` keys are the union; `other`'s values win and `d`'s show through elsewhere |
| PlotKwargs.DefaultsUnderneath | src/tls_utils/plotting.py:20-33 | after defaulting, all five default keys are present, each caller value is kept, each default appears exactly where the caller gave none, and no other key is added |
| PlotKwargs.DefaultsNeverClash | src/tls_utils/plotting.py:36-44 | the five defaults name none of the keywords the helpers pass themselves, so the merged arguments repeat one exactly when the caller's do |
| Plotting.SetIfAbsent | src/tls_utils/plotting.py:20-21 | one "set if absent" step on the caller's kwargs equals putting the default underneath them |
| Plotting.SetDefaults | src/tls_utils/plotting.py:20-33 | the five sequential steps give the caller's kwargs laid over the five defaults |
| Plotting.PlotPagapath | src/tls_utils/plotting.py:19-65 | the returned kwargs are the defaults overridden by the caller; a caller's `return_data` or `show` makes the `paga_path` call fail with those keywords and nothing is written; otherwise, without `save_results` nothing is written, and with it the CSV is exported without overwriting |
| AnnDataExtensions.Positions | src/tls_utils/anndata_extensions.py:130 | the positions of the mask `np.in1d(col, vs)` (or its negation): increasing, in range, and position `i` is present exactly when the value there is (or is not) requested |
| AnnDataExtensions.Take | src/tls_utils/anndata_extensions.py:130 | selection keeps one value per position, in the order of the positions |
| AnnDataExtensions.UsedCategories | src/tls_utils/anndata_extensions.py:130 | after subsetting, a categorical column lists exactly those of its categories that still occur, and no more categories than before |
| AnnDataExtensions.UsedCategoriesInOrder | src/tls_utils/anndata_extensions.py:130 | the kept categories are the old categories taken at the increasing positions of those still in use: a subsequence, in the original order |
| AnnDataExtensions.SelectRows | src/tls_utils/anndata_extensions.py:130 | the subset table is well formed, has one row per position and the same columns |
| AnnDataExtensions.FirstMissingIndex | src/tls_utils/anndata_extensions.py:126-128 | the loop stops at the first requested value absent from the column; every value before it is present |
| AnnDataExtensions.FirstMissing | src/tls_utils/anndata_extensions.py:126-128 | there is no missing value exactly when every requested value occurs in the column |
| AnnDataExtensions.FirstMissingAt | src/tls_utils/anndata_extensions.py:126-128 | the reported value is the one at the first position whose value is absent |
| AnnDataExtensions.NoFilter | src/tls_utils/anndata_extensions.py:119 | a query filters only when values were given, at least one, and not just `[None]`; any two or more values always filter |
| AnnDataExtensions.Validate | src/tls_utils/anndata_extensions.py:123-128 | validation passes exactly when the key is a column and every value occurs in it; a bad key is reported before any value, then the first absent value |
| AnnDataExtensions.ExcludeCheck | src/tls_utils/anndata_extensions.py:108 | exclusion checks only that the column exists and that ids were given: `KeyError` for a missing column, `TypeError` for `None` |
| AnnDataExtensions.Filtered | src/tls_utils/anndata_extensions.py:130 | the queried table is well formed; `QueryKeepsMatchingRows` states which rows it keeps |
| AnnDataExtensions.Excluded | src/tls_utils/anndata_extensions.py:108 | the table after exclusion is well formed; `ExcludeKeepsOtherRows` states which rows it keeps |
| AnnDataExtensions.QueryKeepsMatchingRows | src/tls_utils/anndata_extensions.py:130 | a query keeps exactly the rows whose key value is requested, in their original order, with every column cut to the same rows |
| AnnDataExtensions.ExcludeKeepsOtherRows | src/tls_utils/anndata_extensions.py:108 | exclusion keeps exactly the rows whose key value is not listed, in order, with every column cut to the same rows |
| AnnDataExtensions.QueryExcludeSizes | src/tls_utils/anndata_extensions.py:108-130 | the rows a query keeps and the rows the matching exclusion keeps together number all rows |
| AnnDataExtensions.QueryExcludePartition | src/tls_utils/anndata_extensions.py:108-130 | the kept and the excluded values together are the column's values as a multiset |
| AnnDataExtensions.PositionsAll | src/tls_utils/anndata_extensions.py:130 | when every value is requested, every position is kept |
| AnnDataExtensions.SelectAll | src/tls_utils/anndata_extensions.py:130 | selecting all rows of a table whose categories are all in use changes nothing |
| AnnDataExtensions.UsedAll | src/tls_utils/anndata_extensions.py:130 | categories that all occur are all kept |
| AnnDataExtensions.SelectedColumn | src/tls_utils/anndata_extensions.py:130 | each column of the subset is the old column taken at the kept positions |
| AnnDataExtensions.KeptValues | src/tls_utils/anndata_extensions.py:130 | every kept value is requested, and every requested value that occurs is kept |
| AnnDataExtensions.FilteredColumn | src/tls_utils/anndata_extensions.py:123-130 | after a successful query the key column holds only requested values, and each of them at least once |
| AnnDataExtensions.SelectedCategoriesUsed | src/tls_utils/anndata_extensions.py:130 | after subsetting, every category still listed is used by some row |
| AnnDataExtensions.QueryIdempotent | src/tls_utils/anndata_extensions.py:118-132 | a repeated query with the same values validates again and keeps every row |
| AnnDataExtensions.SetObs | src/tls_utils/anndata_extensions.py:143 | setting an `obs` column gives a well-formed table |
| AnnDataExtensions.Assigned | src/tls_utils/anndata_extensions.py:142-143 | a successful assignment leaves a well-formed `obs`; `AssignObsOnlyKey` and `AssignUnsOnlyKey` state what it changes |
| AnnDataExtensions.AssignObsOnlyKey | src/tls_utils/anndata_extensions.py:139-144 | assigning into `obs` fails exactly when `value_func` fails or a column has the wrong length; otherwise it sets exactly column `key`, to the values or to the broadcast scalar, and leaves other columns, categories, the row count and `uns` unchanged |
| AnnDataExtensions.AssignUnsOnlyKey | src/tls_utils/anndata_extensions.py:136-144 | assigning into `uns` fails exactly when `value_func` fails; otherwise it sets exactly entry `key` and leaves `obs` and the other entries unchanged |
| AnnDataExtensions.ParseHours | src/tls_utils/anndata_extensions.py:95 | an hour field is read exactly when it is a non-empty string of decimal digits |
| AnnDataExtensions.DecimalRoundTrip | src/tls_utils/anndata_extensions.py:95 | reading back the decimal numeral of `n` gives `n` |
| AnnDataExtensions.ParseTimepoint | src/tls_utils/anndata_extensions.py:91-96 | a label that cannot be read fails with an error naming that label |
| AnnDataExtensions.SecondField | src/tls_utils/anndata_extensions.py:93 | the second '_'-field of `prefix + "_" + x` is the first field of `x` |
| AnnDataExtensions.HourField | src/tls_utils/anndata_extensions.py:94 | the part before the first 'h' of `digits + "h" + rest` is the digits |
| AnnDataExtensions.ParseTimepointOf | src/tls_utils/anndata_extensions.py:91-96 | a label `<prefix>_<n>h<rest>` with no '_' in the prefix reads as `n` hours |
| AnnDataExtensions.OrganoidLabel | src/tls_utils/anndata_extensions.py:91-96 | `Organoid_120h` reads as 120 hours |
| AnnDataExtensions.NoUnderscoreNoTimepoint | src/tls_utils/anndata_extensions.py:93 | a label without '_' has no second field and is rejected |
| AnnDataExtensions.ParseEach | src/tls_utils/anndata_extensions.py:92-96 | all labels are read exactly when each one reads, and then result `i` is the hours of label `i` |
| AnnDataExtensions.ReadTimepoints | src/tls_utils/anndata_extensions.py:84-97 | timepoints are the categories of `obs['donor']` and their hours; a missing column, a non-categorical column and an empty category list are errors, and otherwise reading fails exactly when some label does |
| AnnDataExtensions.Pseudotime | src/tls_utils/anndata_extensions.py:183 | the heatmap's `value_func` returns the `dpt_pseudotime` column, or a `KeyError` when there is none |
| AnnDataExtensions.DistanceIsPseudotime | src/tls_utils/anndata_extensions.py:183 | assigning `distance` fails exactly when there is no pseudotime, and otherwise copies it, leaving `uns` alone |
| AnnDataExtensions.MergedPlotKwargs | src/tls_utils/anndata_extensions.py:186-193 | the merged kwargs hold the five defaults and the caller's keys; caller values always win |
| AnnDataExtensions.PlotPath | src/tls_utils/anndata_extensions.py:186-227 | after `distance` is in place: a plot keyword argument that repeats one of the call's own keywords fails with those keywords and writes nothing; otherwise the merged kwargs are returned, nothing is written without `save_df`, and with it the CSV is exported without overwriting |
| AnnDataExtensions.AnnDataObj.Subset | src/tls_utils/anndata_extensions.py:130 | `adata[mask].copy()` is a new object holding the selected rows and the same `uns` |
| AnnDataExtensions.AnnDataObj.Copy | src/tls_utils/anndata_extensions.py:242 | `adata.copy()` is a new object with the same contents |
| AnnDataExtensions.Accessor.Wrap | src/tls_utils/anndata_extensions.py:79-82 | the accessor wraps the object itself and records its timepoints, or fails with the timepoint error |
| AnnDataExtensions.Accessor.Timepoints | src/tls_utils/anndata_extensions.py:84-86 | the property is the current categories of `obs['donor']`, with the errors for a missing or non-categorical column |
| AnnDataExtensions.Accessor.Query | src/tls_utils/anndata_extensions.py:118-132 | a `None`, `[None]` or empty query leaves the object in place; otherwise the result is the validation outcome; a failure leaves the object unchanged, and a success replaces it with a new object holding only the matching rows |
| AnnDataExtensions.Accessor.QueryClusters | src/tls_utils/anndata_extensions.py:111-112 | `query_clusters` is `_query` on the clustering column |
| AnnDataExtensions.Accessor.QueryTimepoints | src/tls_utils/anndata_extensions.py:114-116 | `query_timepoints` is `_query` on the `donor` column |
| AnnDataExtensions.Accessor.ExcludeClusters | src/tls_utils/anndata_extensions.py:107-109 | the outcome is the exclusion check alone, with no validation of the ids; a success replaces the object with a new one holding the other rows |
| AnnDataExtensions.Accessor.Assign | src/tls_utils/anndata_extensions.py:142-144 | the wrapped object is updated in place to the assignment's result, or left unchanged on failure |
| AnnDataExtensions.Accessor.AssignObs | src/tls_utils/anndata_extensions.py:139-140 | `assign_obs` is `_assign` into `obs` |
| AnnDataExtensions.Accessor.AssignUns | src/tls_utils/anndata_extensions.py:136-137 | `assign_uns` is `_assign` into `uns` |
| AnnDataExtensions.Accessor.Copy | src/tls_utils/anndata_extensions.py:241-242 | `copy()` gives a new accessor over a new object with the same contents, so later changes to one do not reach the other |
| AnnDataExtensions.Accessor.PagapathHmap | src/tls_utils/anndata_extensions.py:162-227 | `distance` is assigned in place first, and a failure there changes nothing; the kwargs are merged over the defaults; a plot keyword argument named `nodes`, `keys`, `annotations`, `return_data`, `ax` or `show` makes the `paga_path` call fail with those keywords, with `distance` kept and nothing written; otherwise, without `save_df` nothing is written, and with it an existing target fails with `FileExistsError` before any write, and otherwise the parent directories and the file are created |
| VenvSetup.LinesForFails | src/tls_utils/venv_setup.py:31 | a requirement line fails exactly when its stripped text has no comma or more than one, reporting the number of fields; otherwise it yields at most two lines |
| VenvSetup.LinesFor | src/tls_utils/venv_setup.py:31-37 | a requirement line yields at most two script lines, or an error naming that line; `LinesForFails`, `CranLine`, `BiocLine` and `OtherSourceLine` give each case |
| VenvSetup.CranLine | src/tls_utils/venv_setup.py:32-33 | a `<pkg>,CRAN` line emits exactly `install.packages("<pkg>")` |
| VenvSetup.BiocLine | src/tls_utils/venv_setup.py:34-37 | a `<pkg>,Bioconductor` line emits the BiocManager guard line, then `BiocManager::install("<pkg>")` |
| VenvSetup.OtherSourceLine | src/tls_utils/venv_setup.py:31-37 | any other source, compared as written, emits nothing |
| VenvSetup.PaddedSourceIgnored | src/tls_utils/venv_setup.py:31-37 | only the whole line is stripped, so `ggplot2, CRAN` names the source " CRAN" and emits nothing |
| VenvSetup.BlankLineFails | src/tls_utils/venv_setup.py:31 | a blank line has one field and is an error |
| VenvSetup.Assemble | src/tls_utils/venv_setup.py:28 | every script starts with the CRAN mirror line |
| VenvSetup.Results | src/tls_utils/venv_setup.py:30-31 | one result per requirement line; `ResultsAt` and `ResultsConcat` state which result each line gives |
| VenvSetup.ResultsAt | src/tls_utils/venv_setup.py:30-31 | line `i` of the file produces result `i` |
| VenvSetup.ResultsConcat | src/tls_utils/venv_setup.py:30 | the results of consecutive stretches of lines concatenate |
| VenvSetup.WriteInstallScript | src/tls_utils/venv_setup.py:28-37 | the written lines and the error that stopped the loop are the script specified for the requirement file |
| VenvSetup.Generate | src/tls_utils/venv_setup.py:28-37 | the script for a requirement file starts with the CRAN mirror line; `GenerateInOrder`, `GenerateFails` and `AssembleAllOk` state the rest |
| VenvSetup.AssembleErrorStays | src/tls_utils/venv_setup.py:30-37 | later lines only append, and after an error the script stays as written |
| VenvSetup.GenerateInOrder | src/tls_utils/venv_setup.py:30-37 | the script for the first lines of a file is the beginning of the script for the whole file, and a failure among them ends the script |
| VenvSetup.AssembleFails | src/tls_utils/venv_setup.py:30-37 | processing stops with an error exactly when some line's result is an error |
| VenvSetup.GenerateFails | src/tls_utils/venv_setup.py:30-37 | the script ends in an error exactly when some requirement line fails |
| VenvSetup.AssembleAllOk | src/tls_utils/venv_setup.py:28-37 | when no line fails, the script is the mirror line followed by each line's output, in file order |
| PyStr.StripSpec | data/assets/assets_manager.py:28 | `strip` keeps the stretch after the leading whitespace, followed only by whitespace, neither starting nor ending with whitespace, and empty exactly when the string is all whitespace |
| PyStr.Strip | data/assets/assets_manager.py:28 | `strip` never lengthens a string; `StripSpec` states which characters it keeps |
| PyStr.StripIdempotent | data/assets/assets_manager.py:28 | stripping twice is stripping once |
| PyStr.SplitLength | src/tls_utils/venv_setup.py:31 | `split` yields one field more than there are separators |
| PyStr.Split | src/tls_utils/venv_setup.py:31 | `split` yields at least one field, and no field holds the separator |
| PyStr.JoinSplit | src/tls_utils/venv_setup.py:31 | splitting and re-joining with the same separator gives the string back |
| PyStr.SplitJoin | src/tls_utils/anndata_extensions.py:93 | joining separator-free parts and splitting again gives the parts back |
| PyStr.Join | src/tls_utils/plotting.py:53 | `join` of no parts is empty, and otherwise starts with the first part |
| PyStr.ReplaceChar | data/assets/assets_manager.py:24 | `replace('-', '_')` keeps the length, changes every '-' and only those |
| PyStr.Sorted | data/assets/assets_manager.py:13 | `dir` order: a set of names as a strictly increasing sequence of exactly its elements |

## Left out

- scanpy, matplotlib and pandas behaviour: the `paga_path`, `umap` and `read` calls, figure creation, frame and size settings (`height`, `gene_set`), and the returned figure. These are foreign calls; the model keeps only the keyword arguments handed to `paga_path`.
- `BaseAnnDataMixin.build_methods`, `_make_func`, the three scanpy mixins and `register_anndata_accessor`: reflection over scanpy's modules sets methods and a property at run time, with no logic of the repository's own to state.
- `umap_timepoint`, `set_raw`, `from_file`, `__repr__`, and the `query` and `assign` stubs that raise `NotImplementedError`: plotting, I/O or no behaviour.
- Reading `config.json`, the requirement file and the asset files, and writing the CSV and the R script: the parsed document, the walk with each file's lines, and the file system as a set of paths are inputs, and writing is modelled as adding a path or appending lines.
- The order of `os.walk` and of `dir()`, and the insertion order of Python dicts: the walk is an input sequence, `dir()` is modelled as sorted, and dicts are maps.
- `UnicodeDecodeError`: which files fail to decode is an input; such a file is skipped, as the source does after printing.
- The default `base_path` and `assets_dir` taken from `__file__`, and `os.path.abspath`: callers pass both explicitly.
- `subprocess.run(["Rscript", ...])`, `post_setup`, `main` and the creation of the virtual environment: external processes and the environment.
- `AnnDataExtensions.ParseHours`: reads only plain decimal numerals; other `float()` inputs (signs, fractions, exponents, surrounding whitespace) are treated as unreadable, and hours are an unbounded natural number rather than a `timedelta`, so the `OverflowError` that `timedelta` raises beyond 999999999 days is not modelled.
- `AnnDataExtensions.SetObs`: a `Series` is assigned by position, not by index alignment, and the new column is not categorical; pandas dtypes are not modelled.
- `AnnDataExtensions.SelectRows`: anndata also cuts per-category colour lists in `uns` when it drops unused categories; the model leaves `uns` as it is.
- `AnnDataExtensions.AnnDataObj.Subset`: likewise keeps `uns` unchanged, while anndata's subsetting cuts the per-category colour lists there.
- `AnnDataExtensions.Assigned`: `value_func` is a pure function of the object; side effects it might have are not modelled.
- `AnnDataExtensions.Accessor.PagapathHmap`: the test `save_df is False` is modelled as a `bool`, so a non-bool `save_df` is not distinguished.
- `ResultsExport.ParsePath`: POSIX's special "//" root, a `save_path` already given as a `Path`, and `mkdir` onto an existing regular file are not distinguished.
- `Assets.AssetsManager`: an asset file named after an ordinary attribute (for example `assets_dir.txt`) would shadow it in Python; the model keeps the directory apart from the loaded attributes.
- `AnnDataExtensions.NoFilter`: the single `Cell` value `NA` stands for both `None` and NaN, so a query of `[nan]` counts as no filter here, while Python's `[nan] == [None]` is false and filters.
- `Plotting.PlotPagapath`: only the keywords passed to `paga_path` by name are checked for a clash. A plot keyword such as `keys`, which would also fill a positional parameter of scanpy's `paga_path`, and clashes with extra positional `*args`, depend on scanpy's signature and are not modelled.
- `AnnDataExtensions.PlotPath`: likewise, a plot keyword naming another parameter of scanpy's `paga_path`, or `adata` for the registered method, is not checked for a clash.
- `AnnDataExtensions.Validate`: a NaN requested value is modelled as the cell `NA`, which equals itself, so it passes when the column holds `NA`. Python's `nan in obs[key].values` on a plain array is elementwise `==` and never finds NaN, so the source raises `ValueError` there. On a categorical column, the source's check can pass.
- `AnnDataExtensions.Positions`: for the query (`inside`), a requested `NA` keeps the rows holding `NA`, while `np.in1d` never matches NaN. For exclusion, `isin` does match NaN, as modelled.
