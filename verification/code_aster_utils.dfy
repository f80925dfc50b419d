/** `pre_process` and `post_process`, the file handling around a Code_Aster
    run: locating the input files by suffix, rewriting the command file with
    the design variables, and reading the displacement off the result file. */
module CodeAsterUtils {
  import opened Results
  import opened Text
  import opened Workspaces
  import opened CommandFile

  const CommSuffix: string := ".comm"
  const ExportSuffix: string := ".export"
  const MeshSuffix: string := ".mmed"
  const ResultSuffix: string := ".resu"

  /** 0-based index of the result-file line holding the displacement. */
  const ResultLine: nat := 198

  /** One of the three input files `pre_process` counts. */
  predicate IsInputFile(name: string) {
    EndsWith(name, CommSuffix) || EndsWith(name, ExportSuffix) || EndsWith(name, MeshSuffix)
  }

  /** The last listed name ending in `suffix`: the value a loop variable
      assigned on every match holds after the loop. */
  function LastWithSuffix(names: seq<string>, suffix: string): (r: Option<string>)
    ensures r.None? <==> forall i :: 0 <= i < |names| ==> !EndsWith(names[i], suffix)
    ensures r.Some? ==> exists i :: 0 <= i < |names| && names[i] == r.value && EndsWith(names[i], suffix)
                                    && forall j :: i < j < |names| ==> !EndsWith(names[j], suffix)
    decreases |names|
  {
    if |names| == 0 then None
    else if EndsWith(names[|names| - 1], suffix) then Some(names[|names| - 1])
    else
      var r := LastWithSuffix(names[..|names| - 1], suffix);
      assert forall i :: 0 <= i < |names| - 1 ==> names[..|names| - 1][i] == names[i];
      r
  }

  /** The state of the directory scan in `pre_process`: the counter and the
      two names it remembers. */
  datatype Scan = Scan(count: nat, commFile: Option<string>, exportFile: Option<string>)

  /** One iteration of the scan, with `pre_process`'s `if`/`elif` chain. */
  function ScanEntry(acc: Scan, name: string): Scan {
    if EndsWith(name, CommSuffix) then acc.(count := acc.count + 1, commFile := Some(name))
    else if EndsWith(name, ExportSuffix) then acc.(count := acc.count + 1, exportFile := Some(name))
    else if EndsWith(name, MeshSuffix) then acc.(count := acc.count + 1)
    else acc
  }

  /** Indices of the listed entries that end in one of the input suffixes. */
  function InputIndices(names: seq<string>): set<int> {
    set i | 0 <= i < |names| && IsInputFile(names[i])
  }

  lemma InputIndicesOfLast(names: seq<string>)
    requires |names| > 0
    ensures InputIndices(names) == InputIndices(names[..|names| - 1])
      + (if IsInputFile(names[|names| - 1]) then {|names| - 1} else {})
    ensures |names| - 1 !in InputIndices(names[..|names| - 1])
  {
    var prefix := names[..|names| - 1];
    assert forall i :: 0 <= i < |prefix| ==> prefix[i] == names[i];
  }

  /** No name ends in two of the suffixes, so the `elif` order never hides a
      match. */
  lemma SuffixesExclusive(name: string)
    ensures !(EndsWith(name, CommSuffix) && EndsWith(name, ExportSuffix))
    ensures !(EndsWith(name, CommSuffix) && EndsWith(name, MeshSuffix))
    ensures !(EndsWith(name, ExportSuffix) && EndsWith(name, MeshSuffix))
  {
    if EndsWith(name, CommSuffix) {
      assert name[|name| - 1] == 'm';
    }
    if EndsWith(name, ExportSuffix) {
      assert name[|name| - 1] == 't';
    }
    if EndsWith(name, MeshSuffix) {
      assert name[|name| - 1] == 'd';
    }
  }

  /** The scan over the whole listing. The counter counts matching files, not
      distinct roles, and the last `.comm` and `.export` entries win. */
  function ScanListing(names: seq<string>): (r: Scan)
    ensures r.count == |InputIndices(names)|
    ensures r.commFile == LastWithSuffix(names, CommSuffix)
    ensures r.exportFile == LastWithSuffix(names, ExportSuffix)
    decreases |names|
  {
    if |names| == 0 then Scan(0, None, None)
    else
      var prefix := names[..|names| - 1];
      var last := names[|names| - 1];
      var acc := ScanListing(prefix);
      SuffixesExclusive(last);
      InputIndicesOfLast(names);
      ScanEntry(acc, last)
  }

  datatype PreError =
    | MissingInputs   // fewer than three input files: `FileNotFoundError`
    | CommUnbound     // no `.comm` file although the count passed: unbound `comm_file`
    | CommUnreadable  // the `.comm` entry cannot be opened as a file
    | ExportUnbound   // no `.export` file: unbound `export_file` at the `return`

  /** A workspace-changing step: the workspace afterwards, the side effects in
      order, and the value returned or the error raised. */
  datatype Step<T, E> = Step(ws: Workspace, events: seq<Event>, out: Result<T, E>)

  /** `pre_process(baseDir, x1, x2, x3)`: `x1` is the length, `x2` the
      thickness, `x3` the width; `str` is Python's float formatting. */
  function PreProcess(ws: Workspace, x1: real, x2: real, x3: real,
                      str: real -> string): (r: Step<string, PreError>)
    ensures r.ws.listing == ws.listing
    ensures r.out == Err(MissingInputs) <==> |InputIndices(ws.listing)| < 3
    ensures Replay(ws, r.events) == r.ws
    ensures r.out.Ok? ==> EndsWith(r.out.value, ExportSuffix) && r.out.value in ws.listing
    ensures r.out.Ok? ==> LastWithSuffix(ws.listing, ExportSuffix) == Some(r.out.value)
    ensures r.out == Err(CommUnbound) <==>
      |InputIndices(ws.listing)| >= 3 && LastWithSuffix(ws.listing, CommSuffix).None?
    ensures r.out == Err(CommUnreadable) <==>
      |InputIndices(ws.listing)| >= 3 && LastWithSuffix(ws.listing, CommSuffix).Some?
      && LastWithSuffix(ws.listing, CommSuffix).value !in ws.files
    ensures r.out == Err(MissingInputs) || r.out == Err(CommUnbound) || r.out == Err(CommUnreadable)
      ==> r.ws == ws && r.events == []
  {
    var scan := ScanListing(ws.listing);
    if scan.count < 3 then Step(ws, [], Err(MissingInputs))
    else match scan.commFile
      case None => Step(ws, [], Err(CommUnbound))
      case Some(comm) =>
        if comm !in ws.files then Step(ws, [], Err(CommUnreadable))
        else
          var data := Inject(ws.files[comm], str(x1), str(x2), str(x3));
          var written := Write(ws, comm, data);
          assert Replay(ws, [Rewrote(comm, data)]) == written;
          match scan.exportFile
          case None => Step(written, [Rewrote(comm, data)], Err(ExportUnbound))
          case Some(exportFile) => Step(written, [Rewrote(comm, data)], Ok(exportFile))
  }

  /** With fewer than three input files nothing is opened or written. */
  lemma MissingInputsTouchNothing(ws: Workspace, x1: real, x2: real, x3: real, str: real -> string)
    requires |InputIndices(ws.listing)| < 3
    ensures var r := PreProcess(ws, x1, x2, x3, str);
      r.ws == ws && r.events == [] && r.out == Err(MissingInputs)
  {
  }

  /** Once the count passes and a `.comm` file can be read, exactly that file
      is rewritten, with `EP` from `x2`, `LONG` from `x1`, `LARG` from `x3`,
      whatever happens afterwards; the file chosen is the last `.comm` entry. */
  lemma PreProcessRewritesComm(ws: Workspace, x1: real, x2: real, x3: real, str: real -> string)
    requires |InputIndices(ws.listing)| >= 3
    requires LastWithSuffix(ws.listing, CommSuffix).Some?
    requires LastWithSuffix(ws.listing, CommSuffix).value in ws.files
    ensures var comm := LastWithSuffix(ws.listing, CommSuffix).value;
      var r := PreProcess(ws, x1, x2, x3, str);
      && r.events == [Rewrote(comm, Inject(ws.files[comm], str(x1), str(x2), str(x3)))]
      && r.ws.files
        == ws.files[comm := ReadLines(WriteLines(Inject(ws.files[comm], str(x1), str(x2), str(x3))))]
      && (r.out.Ok? <==> LastWithSuffix(ws.listing, ExportSuffix).Some?)
  {
  }

  /** Running `pre_process` again with the same design leaves the directory
      as the first run left it, when the command file has a `=` on every line
      a key selects and no formatted value holds a key or a newline. */
  lemma PreProcessRepeatable(ws: Workspace, x1: real, x2: real, x3: real, str: real -> string)
    requires |InputIndices(ws.listing)| >= 3
    requires LastWithSuffix(ws.listing, CommSuffix).Some?
    requires LastWithSuffix(ws.listing, CommSuffix).value in ws.files
    requires var lines := ws.files[LastWithSuffix(ws.listing, CommSuffix).value];
      && LineShaped(lines) && KeyLinesHaveEquals(lines)
      && WellFormed(lines, str(x1), str(x2), str(x3))
      && '\n' !in str(x1) && '\n' !in str(x2) && '\n' !in str(x3)
    ensures var first := PreProcess(ws, x1, x2, x3, str);
      var second := PreProcess(first.ws, x1, x2, x3, str);
      second.ws == first.ws && second.out == first.out
  {
    var comm := LastWithSuffix(ws.listing, CommSuffix).value;
    var lines := ws.files[comm];
    var once := Inject(lines, str(x1), str(x2), str(x3));
    PreProcessRewritesComm(ws, x1, x2, x3, str);
    InjectKeepsLineShape(lines, str(x1), str(x2), str(x3));
    WrittenFileIdempotent(lines, str(x1), str(x2), str(x3));
    var first := PreProcess(ws, x1, x2, x3, str);
    assert first.ws.listing == ws.listing && first.ws.files[comm] == once;
    PreProcessRewritesComm(first.ws, x1, x2, x3, str);
    assert first.ws.files[comm := once] == first.ws.files;
  }

  /** When `pre_process` returns, its only side effect was rewriting the last
      `.comm` entry. */
  lemma PreProcessOkTrace(ws: Workspace, x1: real, x2: real, x3: real,
                          str: real -> string) returns (comm: string)
    requires PreProcess(ws, x1, x2, x3, str).out.Ok?
    ensures LastWithSuffix(ws.listing, CommSuffix) == Some(comm) && comm in ws.files
    ensures EndsWith(comm, CommSuffix)
    ensures PreProcess(ws, x1, x2, x3, str).events
      == [Rewrote(comm, Inject(ws.files[comm], str(x1), str(x2), str(x3)))]
  {
    comm := LastWithSuffix(ws.listing, CommSuffix).value;
  }

  /** The counter counts files, not roles: two `.comm` files and a mesh pass
      the check, the command file is rewritten, and only then does the
      missing `.export` file surface, at the `return`. */
  lemma CountsFilesNotRoles(ws: Workspace, x1: real, x2: real, x3: real, str: real -> string)
    requires ws.listing == ["a.comm", "b.comm", "plate.mmed"]
    requires "b.comm" in ws.files
    ensures var r := PreProcess(ws, x1, x2, x3, str);
      var comm := "b.comm";
      && r.out == Err(ExportUnbound)
      && r.events == [Rewrote(comm, Inject(ws.files[comm], str(x1), str(x2), str(x3)))]
  {
    var names := ws.listing;
    ExampleListing(names);
    PreProcessRewritesComm(ws, x1, x2, x3, str);
  }

  /** The suffixes of the three names in the listing below. */
  lemma ExampleSuffixes()
    ensures EndsWith("a.comm", CommSuffix) && EndsWith("b.comm", CommSuffix)
    ensures !EndsWith("plate.mmed", CommSuffix) && !EndsWith("plate.mmed", ExportSuffix)
    ensures EndsWith("plate.mmed", MeshSuffix)
  {
  }

  /** The scan of the listing `a.comm, b.comm, plate.mmed`. */
  lemma ExampleListing(names: seq<string>)
    requires names == ["a.comm", "b.comm", "plate.mmed"]
    ensures ScanListing(names) == Scan(3, Some("b.comm"), None)
  {
    ExampleSuffixes();
    var first := names[..1];
    var second := names[..2];
    assert ScanListing(first) == Scan(1, Some("a.comm"), None) by {
      assert first[..0] == [] && first[0] == "a.comm";
    }
    assert ScanListing(second) == Scan(2, Some("b.comm"), None) by {
      assert second[..1] == first && second[1] == "b.comm";
    }
    assert names[..2] == second && names[2] == "plate.mmed";
  }

  datatype PostError =
    | ResultUnbound        // no `.resu` file: unbound `resu_file`
    | ResultUnreadable     // the `.resu` entry cannot be opened as a file
    | LineMissing          // fewer than 199 lines, or line 198 blank: `IndexError`
    | Unparseable(token: string)  // `float(y)` fails, after the file is removed

  /** `post_process(baseDir)`: the last whitespace-separated token of 0-based
      line 198 of the last `.resu` entry; the file is removed before the
      token is converted by `parse`. */
  function PostProcess(ws: Workspace, parse: string -> Option<real>): (r: Step<real, PostError>)
    ensures Replay(ws, r.events) == r.ws
    ensures r.out.Err? && !r.out.error.Unparseable? ==> r.ws == ws && r.events == []
    ensures r.out.Ok? || r.out.error.Unparseable? ==>
      |r.events| == 1 && r.events[0].Removed? && r.events[0].name in ws.listing
      && EndsWith(r.events[0].name, ResultSuffix)
    ensures var last := LastWithSuffix(ws.listing, ResultSuffix);
      && (r.out == Err(ResultUnbound) <==> last.None?)
      && (r.out == Err(ResultUnreadable) <==> last.Some? && last.value !in ws.files)
      && (r.out == Err(LineMissing) <==>
            last.Some? && last.value in ws.files
            && (|ws.files[last.value]| <= ResultLine
                || LastToken(ws.files[last.value][ResultLine]).None?))
  {
    match LastWithSuffix(ws.listing, ResultSuffix)
    case None => Step(ws, [], Err(ResultUnbound))
    case Some(name) =>
      if name !in ws.files then Step(ws, [], Err(ResultUnreadable))
      else
        var data := ws.files[name];
        if |data| <= ResultLine then Step(ws, [], Err(LineMissing))
        else match LastToken(data[ResultLine])
          case None => Step(ws, [], Err(LineMissing))
          case Some(y) =>
            var removed := Remove(ws, name);
            assert Replay(ws, [Removed(name)]) == removed;
            match parse(y)
            case None => Step(removed, [Removed(name)], Err(Unparseable(y)))
            case Some(v) => Step(removed, [Removed(name)], Ok(v))
  }

  /** A result file shorter than 199 lines, or whose line 198 is blank, raises
      before anything is removed. */
  lemma ShortOrBlankResultKept(ws: Workspace, parse: string -> Option<real>, name: string)
    requires LastWithSuffix(ws.listing, ResultSuffix) == Some(name) && name in ws.files
    requires |ws.files[name]| <= ResultLine || AllSpace(ws.files[name][ResultLine])
    ensures PostProcess(ws, parse) == Step(ws, [], Err(LineMissing))
  {
  }

  /** The value returned is the parse of a non-empty, whitespace-free token
      that is the last token of line 198 of the last `.resu` entry; that file
      is gone afterwards. */
  lemma PostProcessReadsLine198(ws: Workspace, parse: string -> Option<real>,
                                v: real) returns (name: string, t: string)
    requires PostProcess(ws, parse).out == Ok(v)
    ensures LastWithSuffix(ws.listing, ResultSuffix) == Some(name) && name in ws.files
    ensures |ws.files[name]| > ResultLine && LastToken(ws.files[name][ResultLine]) == Some(t)
    ensures IsWord(t) && parse(t) == Some(v)
    ensures name !in PostProcess(ws, parse).ws.listing && name !in PostProcess(ws, parse).ws.files
  {
    name := LastWithSuffix(ws.listing, ResultSuffix).value;
    t := LastToken(ws.files[name][ResultLine]).value;
  }

  /** Conversely, a readable last `.resu` entry whose line 198 ends in a
      token that converts yields that value, with the file removed. */
  lemma PostProcessReturnsToken(ws: Workspace, parse: string -> Option<real>, name: string, y: string,
                                v: real)
    requires LastWithSuffix(ws.listing, ResultSuffix) == Some(name) && name in ws.files
    requires |ws.files[name]| > ResultLine && LastToken(ws.files[name][ResultLine]) == Some(y)
    requires parse(y) == Some(v)
    ensures PostProcess(ws, parse) == Step(Remove(ws, name), [Removed(name)], Ok(v))
  {
  }

  /** The file is removed before the token is converted, so a token that
      does not parse raises with the result file already gone. */
  lemma DeleteBeforeParse(ws: Workspace, parse: string -> Option<real>, name: string, y: string)
    requires LastWithSuffix(ws.listing, ResultSuffix) == Some(name) && name in ws.files
    requires |ws.files[name]| > ResultLine && LastToken(ws.files[name][ResultLine]) == Some(y)
    requires parse(y).None?
    ensures var r := PostProcess(ws, parse);
      r.out == Err(Unparseable(y)) && name !in r.ws.listing && name !in r.ws.files
      && r.events == [Removed(name)]
  {
  }
}
