# Cufflinks pipeline scripts: a Dafny model

The repository holds three Python scripts that drive RNA-seq tools from the
command line:

- CuffLinks.py defines one stage each for samtools sort, cufflinks,
  cuffnorm, cuffquant and cuffdiff. Its `__main__` block sorts the three SAM
  files and then raises in `extract_name_element` (line 184), so the later
  stages are never reached. Nothing calls its `run_cuff_diff` (line 84).
- CuffDiff.py runs cuffdiff over any number of sorted SAM files.
- CuffMerge.py writes a manifest of cufflinks transcript files and runs
  cuffmerge on it.

The scripts' own logic is small and exact:

- how positional arguments are resolved against defaults;
- how derived file names are built;
- which shell command each stage builds;
- when a stage runs or skips because its output already exists;
- what the manifest contains.

This project models that logic as pure Dafny functions and methods, and
proves what each one promises.

Conventions of the model:

- `argv` is a parameter, program name first, instead of `sys.argv`.
- The file system is a predicate `present: string -> bool` (`os.path.exists`),
  seen as one snapshot.
- The directory listing (`os.listdir`) is a given sequence of entries.
- A stage returns the command it would hand to the shell (`Some(cmd)`), or
  `None` when it skips.
- A script that stops early returns `Fail`: `Exit(message)` stands for
  `exit(message)`, and `AssertionFailed(message)` for a failing `assert`.
  The messages are the ones in the source.
- A command string's *words* (`Shell.Words`) are the pieces between single
  spaces. Every command is proved equal to `JoinWords` of its argument
  vector. `Shell.WordsOfJoin` and `Shell.JoinOfWords` show the two views
  determine each other. So when every argument is non-empty and contains
  no space, the words are exactly the arguments the tool receives. An empty
  argument stays an empty word here, while the shell drops it.
- `Strings.Split` models `re.split` on a one-character class (`\.|/`).

Modules: `Base` (Option, Result, Error), `Strings`, `Shell`, `Arguments`
(the argv helpers that CuffDiff.py and CuffMerge.py both define, word for
word), `Naming` (`build_name_insertion`), `CuffLinks`, `CuffDiff` and
`CuffMerge`.

The model follows the code throughout. Points where the code behaves
differently from its own headers, or from what a reader might expect:

- Name derivation drops every `.` and `/`. One might expect
  `"run1/sample.sam"` with `"_sorted"` to give `"run1/sample_sorted.sam"`;
  the code gives `"run1sample_sortedsam"` (`Naming.SortedNameExample`).
- The headers describe the overwrite argument as True/False. The code tests
  the raw string's truthiness, so `"False"` forces a run too.
- CuffDiff.py never requires a SAM file. With none, the command reads
  `... -l-o <output>`.
- CuffMerge.py's header lists three inputs, with the overwrite option
  third. Its `main` reads four: the cufflinks folder, the output folder, the
  run name, then the overwrite option (`CuffMerge.Script`).
- In both scripts `main` asserts that the output folder exists before the
  gate. So the `not os.path.exists(output)` half of the gate is always
  false there, and the tool runs exactly when the overwrite argument is
  non-empty (`CuffDiff.Script`, `CuffMerge.Script`).

## Model

| member | source | states |
|---|---|---|
| `Strings.Split` | CuffLinks.py:109 | `re.split` on a one-character class gives one more piece than there are separators, and no piece contains a separator |
| `Strings.SplitAround` | CuffLinks.py:109 | splitting at a separator splits the text on each side independently |
| `Strings.SplitLast` | CuffLinks.py:110 | the last piece (`name_contents[-1]`) is the text after the last separator |
| `Strings.ConcatSplit` | CuffLinks.py:109-110 | `''.join` of all pieces is the input with every separator removed |
| `Strings.InitialPieces` | CuffLinks.py:110 | `''.join(name_contents[0:-1])` is the text before the last separator with its separators removed |
| `Strings.ConcatAppend` | CuffLinks.py:110 | `''.join` of two lists one after the other is the join of the first followed by the join of the second |
| `Naming.BuildNameShape` | CuffLinks.py:109-110 | a derived name is the text before the last `.`/`/` with all delimiters dropped, then the insert, then the text after the last delimiter |
| `Naming.BuildName` | CuffLinks.py:109-110 | the derived name's length is the name's length less its number of `.` and `/` plus the insert's length: every delimiter is dropped, nothing else is |
| `Naming.BuildNameWithoutInsert` | CuffLinks.py:109-110 | with an empty insert, derivation only strips the delimiters |
| `Naming.BuildNameUndelimited` | CuffLinks.py:109-110 | a name without `.` or `/` becomes the insert followed by the whole name |
| `Naming.BuildNameEnding` | CuffLinks.py:110 | the derived name ends with the text after the last delimiter, and contains a delimiter iff the insert does |
| `Naming.BuildNameDirStemExt` | CuffLinks.py:109-110 | `dir/stem.ext` becomes `dir`, `stem`, the insert and `ext` run together |
| `Naming.SortedNameExample` | CuffLinks.py:181 | `"run1/sample.sam"` with `"_sorted"` becomes `"run1sample_sortedsam"` |
| `Naming.BuildNameStemExt` | CuffLinks.py:109-110 | `stem.ext` (no `/`) becomes `stem`, the insert and `ext` run together |
| `Naming.BuildNameCollision` | CuffLinks.py:109-110 | derivation is not injective: `dir/stem.ext` and the different name `dirstem.ext` give the same derived name |
| `Naming.SortedNameCollisionExample` | CuffLinks.py:181 | `"a/b.sam"` and `"ab.sam"` both get the sorted name `"ab_sortedsam"` |
| `Naming.BuildNameInsertion` | CuffLinks.py:107-111 | one derived name per input, same length and order; element i is determined by input i alone, in the shape above |
| `Arguments.ResolveArguments` | CuffDiff.py:39-59 | returns iff every required (empty-default) position has an argument, and then equals the supplied arguments up to the defaults' length followed by the remaining defaults (so fallbacks form a suffix); otherwise exits with the "Critical Input Missing" message; with enough arguments it passes them through |
| `Arguments.VariableArguments` | CuffDiff.py:62-73 | for a start s ≥ 0 returns `argv[s:]` in order, of length max(0, len(argv) − s); a negative start yields the tail slice padded with empty strings to length len(argv) − s |
| `Shell.WordsOfJoin` | CuffLinks.py:23 | joining space-free words with spaces and splitting on spaces gives the words back |
| `Shell.JoinOfWords` | CuffLinks.py:23 | any command string is the space-join of its words |
| `Shell.PathListJoin` | CuffLinks.py:65-66 | the `'%s ' % path` loop followed by more words is the space-join of the paths and those words |
| `Shell.PathList` | CuffDiff.py:88-89 | the `'%s ' % path` loop text is empty exactly when there are no paths, otherwise ends in a space, and is at least one character per path |
| `Shell.OverwriteSpellings` | CuffDiff.py:85 | every string except the empty one counts as true, so the raw overwrite arguments `"False"`, `"false"`, `"0"` and `"True"` all force a run |
| `CuffLinks.SortCommand` | CuffLinks.py:36 | the sort command is the argument vector `samtools sort <in> <out>` |
| `CuffLinks.StageCommand` | CuffLinks.py:49 | the cufflinks command is the word list `cufflinks <sam> -g <annotation> -o <output>`; the cuffquant command of line 80 is the same list led by `cuffquant` |
| `CuffLinks.CuffNormCommand` | CuffLinks.py:64-67 | the cuffnorm command is `cuffnorm`, every sorted SAM path in order, then `-g <annotation> -o <output> <transcripts>` |
| `CuffLinks.CuffDiffCommand` | CuffLinks.py:95-96 | the cuffdiff command is `cuffdiff -g <annotation> -l <s1> <s2> <s3> -o <output>` |
| `CuffLinks.SortSam` | CuffLinks.py:28-37 | issues the sort command iff the sorted file does not exist |
| `CuffLinks.RunStage` | CuffLinks.py:40-81 | `run_cuff_links` (lines 40-50, tool `cufflinks`) and `run_cuff_quant` (lines 71-81, tool `cuffquant`): each issues its command iff its output folder does not exist |
| `CuffLinks.RunCuffNorm` | CuffLinks.py:53-68 | issues the cuffnorm command iff its output does not exist |
| `CuffLinks.RunCuffDiff` | CuffLinks.py:84-97 | issues the three-sample cuffdiff command iff its output does not exist |
| `CuffLinks.Pending` | CuffLinks.py:137-138 | the pair indices whose sorted file is missing: increasing, below the pair count, and containing exactly the missing ones |
| `CuffLinks.SortPairs` | CuffLinks.py:137-138 | the commands for the first n pairs are the sort commands of exactly the pending pairs, in pair order |
| `CuffLinks.SortAllSamFiles` | CuffLinks.py:130-138 | `sort_all_sam_files` issues sort commands pairwise over the zip, only for missing sorted files, in order, at most min(len(sam_files), len(sorted_sam_files)) of them |
| `CuffLinks.SortAllUnsorted` | CuffLinks.py:137-138 | when no sorted file exists, every zipped pair is sorted, in order |
| `CuffDiff.Command` | CuffDiff.py:87-90 | the cuffdiff command is `cuffdiff -p 8 -g <annotation>`, then `-l` glued to the first SAM file, the other SAM files, then `-o <output>`; with no SAM file the words are `... -l-o <output>` |
| `CuffDiff.CommandWords` | CuffDiff.py:87-90 | for space-free paths the shell sees the first SAM file fused with `-l` as a single word |
| `CuffDiff.RunCuffDiff` | CuffDiff.py:76-94 | runs iff the output is absent or the overwrite string is non-empty (so "False" forces a run) |
| `CuffDiff.Script` | CuffDiff.py:97-107 | exits iff fewer than three arguments are given; otherwise fails on the first missing annotation, output folder or SAM file, with the source's message; on success cuffdiff runs iff the overwrite argument is non-empty, over `argv[4:]` |
| `CuffMerge.Command` | CuffMerge.py:89 | the cuffmerge command is exactly `cuffmerge -o <output> <manifest>` |
| `CuffMerge.RunCuffMerge` | CuffMerge.py:79-90 | runs iff the output is absent or the overwrite string is non-empty |
| `CuffMerge.ManifestName` | CuffMerge.py:106 | the manifest file name is the run name followed by `.txt`, four characters longer, so the run name is its prefix and different run names give different files |
| `CuffMerge.ManifestContent` | CuffMerge.py:93-96 | the manifest is empty exactly when the listing is, and a non-empty manifest ends with a newline |
| `CuffMerge.ManifestContentAppend` | CuffMerge.py:95-96 | the manifest of a listing split in two is the first part's manifest followed by the second's, so lines keep the listing's order |
| `CuffMerge.ManifestLines` | CuffMerge.py:93-96 | for newline-free names the manifest has exactly one newline-terminated line per listing entry, in listing order, each `<folder>/<entry>/transcripts.gtf` and each giving back its entry |
| `CuffMerge.Script` | CuffMerge.py:99-108 | exits iff fewer than four arguments are given; fails if the output or cufflinks folder is missing; otherwise the manifest `<run_name>.txt` holds the listing's lines, whether or not the merge runs; the merge runs iff the overwrite argument is non-empty |

## Left out

- `execute_on_command_line` (CuffLinks.py:16-25, CuffDiff.py:29-36, CuffMerge.py:30-39) runs a process, which is a foreign call. The model returns the command string instead. The `exit_code == 1` branch of the CuffLinks.py and CuffMerge.py copies cannot be reached, because `check_call` returns 0 or raises; the CuffDiff.py copy has no such branch. A failing tool is therefore not modelled.
- `extract_name_element` (CuffLinks.py:114-127) is not modelled. Line 124 unpacks each string as `(index, name)`, so the function raises for any non-empty list of ordinary paths.
- `run_all_cuff_links`, `run_all_cuff_norm`, `run_all_cuff_quantification` and the `__main__` block of CuffLinks.py (lines 141-191) are not modelled. They are orchestration around the modelled stages: each `run_all_*` loop calls one stage per element. `run_all_cuff_links` passes one output name per SAM file (line 150). `run_all_cuff_norm` and `run_all_cuff_quantification` pass the whole `cuff_norm_output` to every call (lines 163 and 175). Lines 187 and 190 of `__main__` would make that a list, so Python would put the list's text form into the command, but those lines are unreachable: `__main__` first raises in `extract_name_element` at line 184, right after the sort stage (lines 181-182). Only `__main__` uses `extract_name_element` (lines 184-190).
- File system: `present` is one snapshot. The files a command creates are not fed back into later gates of the same run. A race between the check and the tool's own write is not modelled either. One consequence: two SAM files whose paths derive the same sorted name (`Naming.BuildNameCollision`, for example `a/b.sam` and `ab.sam`) get two sort commands in the model, while in CuffLinks.py the live check at line 35 finds the first sort's output and skips the second, so that sample goes on with the first sample's sorted file.
- `make_manifest_text_file` opens (and so creates) the manifest before it calls `os.listdir`. A manifest written inside the listed folder therefore lists itself. `listing` stands for the listing taken after the manifest file exists; the model does not derive it from the file system.
- Errors from `open`, `write` and `os.listdir` are not modelled. The listing's order is whatever the given sequence says.
- `print` output and the `isinstance` assertions are not modelled. The latter hold by typing.
- `CuffDiff.Script` and `CuffMerge.Script` assume assertions are enabled. Under `python -O` the `assert os.path.exists` checks disappear, and the gates then also depend on whether the output exists.
- `CuffDiff.RunCuffDiff` and `CuffMerge.RunCuffMerge` take `overwrite` as a string. The boolean default `overwrite=False` is never used by `main`; it behaves as the empty string does.
- `Shell.Words` splits on every single space. Shell quoting, other whitespace and metacharacters are not modelled, so command words are exact only for paths without such characters. An empty argument (say an empty annotation path) is kept as an empty word, but `sh -c` drops an unquoted empty word, so the tool then receives one argument fewer and reads the next flag in its place; that shift is not modelled.
- Python's `%s` conversion of non-string values is not modelled; every argument is a string.
