# Objective-function harnesses of the BOA interface examples, in Dafny

This project models the evaluation harnesses that the BOA (Bayesian
Optimization Accelerator) interface examples hand to the optimizer as
objective functions, and proves properties of them. Each harness takes a
design vector, drives an external simulator or a lookup table, and returns
one number.

- **Code_Aster plate** (`code_aster_utils.py`, `code_aster_example.py`).
  `pre_process` locates the input files by suffix. It then rewrites the
  command file (`.comm`) in three first-match passes: `EP` gets the
  thickness, `LONG` the length and `LARG` the width. `objective_func` then
  runs `as_run <export file>` in the case directory and extracts the
  `DIAGNOSTIC JOB :` status from its output. Finally `post_process` takes the
  last token of 0-based line 198 of the `.resu` file, deletes the file, and
  converts the token. Modules:
  - `CommandFile` (the three passes),
  - `CodeAsterUtils` (`pre_process`, `post_process`),
  - `CodeAsterExample` (`objective_func`).
- **OpenFOAM cylinder** (`openfoam-boa-simple.py`). `objective_func` runs
  `preprocess`, `setBCs`, `simCFD` and `postprocess` from the case
  directory, in that order. Each gets the stringified design vector as its
  arguments. It returns the stripped standard output of `postprocess`,
  converted to a float. Module `OpenFoam`.
- **Harvard core table** (`harvard_core.py`). `myfunc` quantises 13
  coordinates with `int(0.5 + x)` and returns the `bips` of the first table
  row that matches. It also keeps an iteration counter, a timer and a log of
  raw inputs. Module `HarvardCore`.

Supporting modules:
- `Results`: `Option` and `Result`.
- `Seqs`: first-index search.
- `Text`: Python string operations on `seq<char>`. These are `in`,
  `endswith`, `split(sep)[0]`, `split()`, `strip()`, the whitespace set
  that `str.isspace` accepts, and a file's `readlines()` and `writelines`.
- `Process`: a process call and its outcome.
- `Workspaces`: a directory as a listing plus file contents, and side
  effects as a trace of events.

## How the outside world is modelled

- **Directory.** A `Workspace` has two parts. The first is the listing in
  `os.listdir` order, which is arbitrary and therefore a parameter. The
  second is a map from entry names to file contents, each file being the
  list of lines `readlines()` gives. A write stores what `readlines()`
  would give back from the written text, so a later read sees the file as
  Python would. A listed name missing from the map is
  an entry that cannot be opened as a file.
- **Side effects.** Every operation that touches the directory returns the
  events it caused, in order: `Rewrote`, `Invoked` or `Removed`.
  `PreProcess` and `PostProcess` also prove that replaying their events on
  the input workspace gives their output workspace. In `CodeAsterExample`
  the simulator changes the workspace through its oracle, and those changes
  are not events.
- **Numbers.** `str(float)` and `float(text)` are parameters `str` and
  `parse`, with floats as exact `real` numbers. Only the Harvard
  quantisation rounds or truncates. It models Python's `int()` truncation
  toward zero exactly, but the addition `0.5 + x` is exact here, not
  rounded as a binary float (see "Left out").
- **Processes.** Processes are oracles.
  - Code_Aster: `sim(call, workspace)` gives the outcome and the workspace
    the run leaves behind.
  - OpenFOAM: `run(history, call)` gives the outcome, where `history` is the
    list of calls launched before.
  - An outcome is either `Exited(code, stdout)` or `NotLaunched`, the latter
    when `Popen`/`call` raises because the executable cannot be started.
- **Exceptions.** Each Python exception becomes a constructor of an error
  datatype:
  - `PreError`, `PostError` and `AsterError` for Code_Aster,
  - `FoamError` for OpenFOAM,
  - `HarvardError` for the Harvard table.

  Side effects that happened before the exception are kept in the result.

## Model

| member | source | states |
|---|---|---|
| Seqs.FirstIndex | Code_Aster/Code_Aster_Interface/code_aster_utils.py:47-50 | the index a `for`/`break` search stops at: none exactly when no element qualifies, otherwise a qualifying index with none before it |
| Text.BeforeFirst | Code_Aster/Code_Aster_Interface/code_aster_utils.py:49 | `split('=')[0]` is a prefix free of `=` that stops at the first `=` or runs to the end |
| Text.IndexOf | Code_Aster/Code_Aster_Interface/code_aster_example.py:61 | the first occurrence of the marker, or none exactly when the text does not contain it |
| Text.SplitPositions | Code_Aster/Code_Aster_Interface/code_aster_utils.py:95 | the tokens of `split()` are exactly the line's maximal non-whitespace runs in order: each occurs at its position, consecutive tokens are separated by a non-empty whitespace run, and everything before the first and after the last is whitespace |
| Text.LastToken | Code_Aster/Code_Aster_Interface/code_aster_utils.py:95 | `split()[-1]` is undefined (IndexError) exactly for an all-whitespace line, otherwise a non-empty whitespace-free word |
| Text.LastTokenPosition | Code_Aster/Code_Aster_Interface/code_aster_utils.py:95 | the last token occurs in the line preceded by whitespace or the line start and followed only by whitespace |
| Text.ReadLines | Code_Aster/Code_Aster_Interface/code_aster_utils.py:42-43 | `readlines()` cuts the text into lines that concatenate back to it, each non-empty, ending in a newline except possibly the last, with no other newline |
| Text.ReadLinesOfWriteLines | Code_Aster/Code_Aster_Interface/code_aster_utils.py:41-66 | a list of that shape, written with `writelines`, reads back as the same list |
| Text.StripShape | openFOAM_Simple/cylinder/openfoam-boa-simple.py:67 | `strip()` returns the middle of the text; what it removes on each side is whitespace, and it keeps no whitespace at either end |
| Workspaces.Write | Code_Aster/Code_Aster_Interface/code_aster_utils.py:63-66 | truncating and rewriting the command file makes it hold the concatenation of the written lines, read back as `readlines()` gives it (the written list itself when it has that shape), and leaves the listing and every other file as they were |
| Workspaces.Remove | Code_Aster/Code_Aster_Interface/code_aster_utils.py:98 | `os.remove` drops the entry from the listing and the contents, with nothing else changed |
| CommandFile.Rewrite | Code_Aster/Code_Aster_Interface/code_aster_utils.py:49 | the rewritten line keeps the text before its first `=` and ends with a newline |
| CommandFile.RewrittenLineFormat | Code_Aster/Code_Aster_Interface/code_aster_utils.py:49 | the rewritten line is the original up to its first `=` (all of it if none), then `= `, the value and a newline, and holds one `=` when the value has none |
| CommandFile.RewriteOverwrites | Code_Aster/Code_Aster_Interface/code_aster_utils.py:47-60 | when two passes select the same line, the later value wins and the earlier leaves no trace |
| CommandFile.KeyLineWithoutEquals | Code_Aster/Code_Aster_Interface/code_aster_utils.py:49 | a selected line with no `=` keeps its own newline before the appended `= value`, so the written element holds two lines |
| CommandFile.ContainsRewrite | Code_Aster/Code_Aster_Interface/code_aster_utils.py:48-59 | a key without `=`, space or newline is in a rewritten line exactly when it is in the kept head or in the value |
| CommandFile.FirstLine | Code_Aster/Code_Aster_Interface/code_aster_utils.py:47-48 | the line a pass selects is the first containing the key as a substring; none when no line contains it |
| CommandFile.Pass | Code_Aster/Code_Aster_Interface/code_aster_utils.py:47-50 | one pass keeps the line count, rewrites the first matching line, leaves every other line (later matches included) unchanged, and is a no-op for an unmatched key |
| CommandFile.RewriteFirstMatch | Code_Aster/Code_Aster_Interface/code_aster_utils.py:47-50 | the `enumerate` loop with `break` computes exactly one pass |
| CommandFile.Inject | Code_Aster/Code_Aster_Interface/code_aster_utils.py:45-60 | the three passes keep the line count and change nothing when no line holds a key |
| CommandFile.InjectOnlyRewrites | Code_Aster/Code_Aster_Interface/code_aster_utils.py:45-60 | every written line is the read line, or that line rewritten with one of the three values |
| CommandFile.FirstLineStable | Code_Aster/Code_Aster_Interface/code_aster_utils.py:47-60 | if each key sits before the first `=` of its first line and no value contains a key, earlier passes do not move any key's first line |
| CommandFile.InjectMatchesReference | Code_Aster/Code_Aster_Interface/code_aster_utils.py:45-60 | under that condition the sequential passes equal a one-shot reference: each key selects its first line in the file as read, and a line selected twice gets `LARG` over `LONG` over `EP` |
| CommandFile.TwoKeysOnOneLine | Code_Aster/Code_Aster_Interface/code_aster_utils.py:47-60 | under that condition, a line that is the first match of two keys ends up holding only the later pass's value, for each of the pairs LONG and LARG, EP and LONG, EP and LARG |
| CommandFile.InjectIdempotent | Code_Aster/Code_Aster_Interface/code_aster_utils.py:45-60 | under that condition, injecting the same values again into the list of lines the passes produced changes nothing |
| CommandFile.InjectKeepsLineShape | Code_Aster/Code_Aster_Interface/code_aster_utils.py:41-66 | when each key sits before the first `=` of its first matching line, no value contains a key or a newline, and the file as read has a `=` on every line a key selects, the written lines read back from the file as exactly the list written |
| CommandFile.WrittenFileIdempotent | Code_Aster/Code_Aster_Interface/code_aster_utils.py:41-66 | under both conditions, reading the written file back and injecting the same values again writes the same lines |
| CommandFile.KeyLineWithoutEqualsGrows | Code_Aster/Code_Aster_Interface/code_aster_utils.py:41-66 | for a one-line file whose line contains `EP` but neither `LONG`, `LARG` nor `=`, such as `EP\n`: the line is rewritten to itself followed by `= value`, reads back as two lines, and a second injection writes a longer file |
| CodeAsterUtils.LastWithSuffix | Code_Aster/Code_Aster_Interface/code_aster_utils.py:25-31 | the variable assigned on every suffix match holds the last listed match after the loop, and is unbound exactly when nothing matches |
| CodeAsterUtils.SuffixesExclusive | Code_Aster/Code_Aster_Interface/code_aster_utils.py:26-33 | no name ends in two of `.comm`, `.export` and `.mmed`, so the `elif` order hides no match |
| CodeAsterUtils.ScanListing | Code_Aster/Code_Aster_Interface/code_aster_utils.py:22-33 | the counter equals the number of listed files with an input suffix (files, not roles), and the remembered names are the last `.comm` and `.export` entries |
| CodeAsterUtils.PreProcess | Code_Aster/Code_Aster_Interface/code_aster_utils.py:5-68 | keeps the listing; its events replay to its result; raises the missing-inputs error exactly when fewer than three input files are listed, the unbound-command-file error exactly when the count passes with no `.comm` entry, and the unreadable error exactly when the last `.comm` entry is not a file, all three with nothing changed; a returned name is the last listed `.export` entry |
| CodeAsterUtils.MissingInputsTouchNothing | Code_Aster/Code_Aster_Interface/code_aster_utils.py:36-39 | with fewer than three input files nothing is opened or written |
| CodeAsterUtils.PreProcessRewritesComm | Code_Aster/Code_Aster_Interface/code_aster_utils.py:41-68 | once the count passes and the last `.comm` entry is readable, exactly that file is rewritten (EP from x2, LONG from x1, LARG from x3), whether or not an `.export` name is then returned |
| CodeAsterUtils.PreProcessRepeatable | Code_Aster/Code_Aster_Interface/code_aster_utils.py:22-68 | when each key sits before the first `=` of its first matching line, that line has a `=`, and the values are free of keys and newlines, a second `pre_process` with the same design leaves the directory and the returned name as the first left them |
| CodeAsterUtils.PreProcessOkTrace | Code_Aster/Code_Aster_Interface/code_aster_utils.py:41-68 | when a name is returned, the only side effect was rewriting the last `.comm` entry |
| CodeAsterUtils.ExampleListing | Code_Aster/Code_Aster_Interface/code_aster_utils.py:22-33 | the listing `a.comm, b.comm, plate.mmed` scans to count 3, command file `b.comm`, no export file |
| CodeAsterUtils.CountsFilesNotRoles | Code_Aster/Code_Aster_Interface/code_aster_utils.py:22-68 | with that listing the count check passes, `b.comm` is rewritten, and only then does the missing export name raise |
| CodeAsterUtils.PostProcess | Code_Aster/Code_Aster_Interface/code_aster_utils.py:71-100 | raises the unbound-result error exactly when no `.resu` entry is listed, the unreadable error exactly when the last one is not a file, and the missing-line error exactly when that file has at most 198 lines or a blank line 198, all three with nothing changed; a value, or a token that fails to convert, comes with exactly one removal of a listed `.resu` entry |
| CodeAsterUtils.ShortOrBlankResultKept | Code_Aster/Code_Aster_Interface/code_aster_utils.py:90-95 | a result file with at most 198 lines, or a blank line 198, raises and is not removed |
| CodeAsterUtils.PostProcessReadsLine198 | Code_Aster/Code_Aster_Interface/code_aster_utils.py:84-100 | a returned value is the conversion of the last token of line 198 of the last `.resu` entry, and that file is gone afterwards |
| CodeAsterUtils.PostProcessReturnsToken | Code_Aster/Code_Aster_Interface/code_aster_utils.py:84-100 | conversely, when the last `.resu` entry is readable and its line 198 ends in a token that converts, that value is returned and the file is removed, with nothing else changed |
| CodeAsterUtils.DeleteBeforeParse | Code_Aster/Code_Aster_Interface/code_aster_utils.py:95-100 | a token that does not convert raises after the result file has been removed |
| CodeAsterExample.DiagnosticStatus | Code_Aster/Code_Aster_Interface/code_aster_example.py:59-61 | the status is undefined (IndexError) exactly when the output lacks the marker, and never holds a newline |
| CodeAsterExample.StatusFollowsFirstMarker | Code_Aster/Code_Aster_Interface/code_aster_example.py:61 | the status starts right after the first marker and is the longest piece with no newline and no further marker |
| CodeAsterExample.Evaluate | Code_Aster/Code_Aster_Interface/code_aster_example.py:40-42 | a vector shorter than three raises before anything is touched |
| CodeAsterExample.SimulatorCalledOnce | Code_Aster/Code_Aster_Interface/code_aster_example.py:46-56 | `as_run` is launched once, with argv `['as_run', export_file]` in the case directory, exactly when `pre_process` returned; otherwise it is never launched |
| CodeAsterExample.SuccessTrace | Code_Aster/Code_Aster_Interface/code_aster_example.py:40-70 | a returned value comes from exactly three side effects in order: rewrite the last listed `.comm` file with x[0], x[1], x[2]; run `as_run` on the last listed `.export` name; remove a `.resu` file |
| CodeAsterExample.MissingMarker | Code_Aster/Code_Aster_Interface/code_aster_example.py:59-61 | output without the marker raises after the rewrite and the run, and before the result file is read or removed |
| CodeAsterExample.ReturnsPostProcess | Code_Aster/Code_Aster_Interface/code_aster_example.py:59-70 | once the marker is found, the evaluation returns or raises exactly what `post_process` does on the workspace the run left |
| CodeAsterExample.ReturnsResultValue | Code_Aster/Code_Aster_Interface/code_aster_example.py:40-70 | the objective returns a number: once `pre_process` returned and the output has the marker, a readable last `.resu` entry with a converting token on line 198 gives that value, and the file is gone |
| CodeAsterExample.ExitCodeIgnored | Code_Aster/Code_Aster_Interface/code_aster_example.py:55-61 | the evaluation is the same whatever exit status `as_run` reports |
| OpenFoam.Evaluate | openFOAM_Simple/cylinder/openfoam-boa-simple.py:45-72 | the calls are a non-empty prefix of the four stages in order, every call but the last was launched, a value is returned only after all four ran, and a launch failure names the stage of the last call, which could not be started |
| OpenFoam.Format | openFOAM_Simple/cylinder/openfoam-boa-simple.py:46 | `[str(el) for el in x]` has one string per element, in order |
| OpenFoam.PlanShape | openFOAM_Simple/cylinder/openfoam-boa-simple.py:46-67 | each stage's argv is `baseDir + "/" + stage` followed by `str(el)` for each element in order, `len(x) + 1` entries, run in `baseDir` |
| OpenFoam.RunFrom | openFOAM_Simple/cylinder/openfoam-boa-simple.py:45-72 | the calls made are the stages in order up to where the run stops; it stops early only at a stage that cannot be launched, and then fails naming that stage |
| OpenFoam.LastStage | openFOAM_Simple/cylinder/openfoam-boa-simple.py:67-72 | the last stage yields a value exactly when it exits with 0 and its stripped output converts; a non-zero exit fails with that code |
| OpenFoam.StageOrder | openFOAM_Simple/cylinder/openfoam-boa-simple.py:48-67 | the calls are a prefix of preprocess, setBCs, simCFD, postprocess; all four run exactly when the first three can be launched, whatever their exit codes |
| OpenFoam.ResultIsStrippedOutput | openFOAM_Simple/cylinder/openfoam-boa-simple.py:67-72 | the result is a value exactly when all four stages ran, `postprocess` exited with 0 and its stripped output converts; the value is that conversion |
| OpenFoam.LastStageFailure | openFOAM_Simple/cylinder/openfoam-boa-simple.py:67 | a non-zero exit from `postprocess` after three launched stages fails with that code |
| OpenFoam.EarlyExitCodesIgnored | openFOAM_Simple/cylinder/openfoam-boa-simple.py:49-61 | changing the exit codes of the first three stages changes neither the calls made nor the result |
| HarvardCore.Trunc | harvard_core/harvard_core.py:125 | `int()` truncates toward zero: the result is within one of the input, on the side of zero |
| HarvardCore.QuantiseKey | harvard_core/harvard_core.py:125-137 | the key has 13 entries, each `int(0.5 + x[i])` |
| HarvardCore.QuantiseRoundsHalfUp | harvard_core/harvard_core.py:125-137 | from -1/2 up, quantisation is round-to-nearest with ties up |
| HarvardCore.QuantiseBelowMinusHalf | harvard_core/harvard_core.py:125-137 | below -1/2 truncation goes toward zero: the result Q satisfies Q - 3/2 < v <= Q - 1/2, so it is one above round-half-up except at half-integers, where the two agree (-3/2 gives -1); a negative integer n becomes n + 1 |
| HarvardCore.Select | harvard_core/harvard_core.py:141 | the `df.loc[mask, 'bips']` selection is empty exactly when no row's 13 design columns equal the key |
| HarvardCore.SelectStartsAtFirstRow | harvard_core/harvard_core.py:141 | `.iloc[0]` of the selection is the `bips` of the first matching row in table order |
| HarvardCore.FirstRow | harvard_core/harvard_core.py:141 | the first matching row, or none exactly when no row matches |
| HarvardCore.Objective | harvard_core/harvard_core.py:117-148 | the counter rises by one and the timer takes the call's clock reading even when the call fails; failures leave the log alone; success appends exactly `[iter, *x, bips, iter_time]` with the returned `bips`; short vectors and unmatched keys fail exactly when they occur |
| HarvardCore.ReturnsFirstMatch | harvard_core/harvard_core.py:141-148 | with 13 coordinates the result is the first matching row's `bips`, and there is no result exactly when no row matches |
| HarvardCore.ObjectiveKeepsLogConsistent | harvard_core/harvard_core.py:119-148 | every logged row holds 13 raw coordinates, the table value for their key, and an iteration number at most the counter and increasing down the log; each call keeps this |
| HarvardCore.SessionInvariant | harvard_core/harvard_core.py:114-148 | over any sequence of calls the counter grows by exactly the number of calls, the log only grows at its end by at most one row per call, and it stays consistent |

## Left out

- BOaaS SDK traffic is not modelled: login, experiment creation, runs,
  best observation and stop. It is network client code over an unseen
  library. The experiment configuration dictionaries and the prompts for
  URL and credentials are left out as well.
- Console output (`print`) is not modelled. Neither is the CSV the Harvard
  example rewrites after each call (`to_csv`), because it is a file
  rendering of the log the model keeps.
- Pandas is not modelled. That covers `read_table`, the `bips` column
  formula, and the table's dtypes. The table is given as rows of design
  columns and `bips`, with numeric equality for matching.
- The concrete text of `str(float)` and the set of strings `float()`
  accepts are left abstract. Both are function parameters.
- Timer readings from `perf_counter` are a per-call parameter. Their values
  are not modelled.
- UTF-8 decoding of process output (`.decode('utf-8')`) is not modelled,
  and so a decoding failure is not either. Output is given already decoded.
  Only `stdout` is observed.
- Path joining with `baseDir` is not modelled. Files are keyed by their
  entry name in the case directory, which is the directory every process
  runs in.
- Operating-system failures other than a missing `.comm`/`.resu` entry or
  an executable that cannot start are not modelled. Examples are permission
  errors, `os.remove` failing and a partial write. The rewrite of the
  command file is modelled as a single write of the new lines.
- The `sys.exit()` after `raise` in `pre_process` is unreachable and has
  no counterpart.
- CommandFile.InjectMatchesReference, CommandFile.TwoKeysOnOneLine,
  CommandFile.InjectIdempotent, CommandFile.InjectKeepsLineShape,
  CommandFile.WrittenFileIdempotent and CodeAsterUtils.PreProcessRepeatable
  hold only under `WellFormed`. Each key must
  appear before the first `=` on its first matching line, and no value text
  may contain a key. Without that, a rewrite can create or remove a key
  occurrence and move a later pass's line. For example, in the line
  `LONG = LARG` the `LONG` pass rewrites the line and removes `LARG`, so
  the line keeps the length and not the width. In `["x = EP\n", "EP = 1\n"]`
  the first evaluation rewrites line 0 and a second one rewrites line 1, so
  `pre_process` is not repeatable there. The passes themselves
  (`Pass`, `Inject`) are modelled for every input.
- CommandFile.InjectIdempotent is about the list of lines the passes
  produce, not the file read back. The file-level statement,
  `WrittenFileIdempotent`, also needs a `=` on every line a key selects and
  values free of newlines. Without the `=`, the key line keeps its own
  newline in front of `= value`, and the file gains a line on every
  evaluation (`KeyLineWithoutEqualsGrows`).
- HarvardCore.QuantiseKey computes `0.5 + x` exactly. Python adds two
  binary floats and rounds, so `int(0.5 + 0.49999999999999994)` is 1 in
  Python but 0 here, since the exact sum is below 1. NaN and infinite
  coordinates, for which Python's `int()` raises, have no counterpart
  among the reals.
- Newline translation in text mode (`\r\n` and `\r` read as `\n`) is not
  modelled: `readlines()` cuts the text after each `\n`.
- The code behaves as follows, which a caller may not expect; the model
  follows the code:
  - An unmatched key is a silent no-op, not an error.
  - The command file is rewritten before a missing export name raises. The
    rewrite is not all-or-nothing.
  - Input files are counted per file, not per role. Duplicate candidates
    are not rejected: the last listed one wins.
  - The exit codes of the first three OpenFOAM stages are ignored, and
    `postprocess` still runs.
  - The exit status of `as_run` is never inspected.
  - The result-file line index is the constant 198.
  - A token that fails to convert is reported after the result file has
    been deleted.
  - No stage has a timeout.
