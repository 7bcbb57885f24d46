/** `compile_files` and `file_changed`: which UI and resource files get recompiled.
    The file system is given as data: for each source file whether it exists, and
    the modification times `os.stat` reports (`None` where `os.stat` raises). */
module CompileFiles {
  import opened Wrappers

  /** `file_changed(infile, outfile)`: the output is up to date only when both
      files can be stat'ed and the input is not newer than the output. */
  function FileChanged(input: Option<real>, output: Option<real>): (r: bool)
    ensures !r <==> input.Some? && output.Some? && input.value <= output.value
  {
    match input
    case None => true
    case Some(i) =>
      match output
      case None => true
      case Some(o) => i > o
  }

  /** A `.ui` or `.qrc` file and the generated `.py` file next to it. */
  datatype SourceFile = SourceFile(present: bool, mtime: Option<real>, outputMtime: Option<real>)

  /** The loop body's test: the file exists and its output is stale. */
  predicate NeedsCompile(f: SourceFile) {
    f.present && FileChanged(f.mtime, f.outputMtime)
  }

  /** The positions of the files the compiler is run on, in order. */
  function Stale(files: seq<SourceFile>): (r: seq<nat>)
    ensures forall k :: 0 <= k < |r| ==> r[k] < |files| && NeedsCompile(files[r[k]])
    ensures forall k, l :: 0 <= k < l < |r| ==> r[k] < r[l]
    ensures forall i :: 0 <= i < |files| && NeedsCompile(files[i]) ==> i in r
  {
    if files == [] then []
    else
      var n := |files| - 1;
      var before := Stale(files[..n]);
      assert forall k :: 0 <= k < |before| ==> files[before[k]] == files[..n][before[k]];
      before + (if NeedsCompile(files[n]) then [n] else [])
  }

  /** One of the two loops of `compile_files`: with the compiler on the PATH, it is
      run on each stale file and counted; without it nothing is compiled. */
  method CompileAll(toolFound: bool, files: seq<SourceFile>) returns (count: nat, compiled: seq<nat>)
    ensures compiled == if toolFound then Stale(files) else []
    ensures count == |compiled|
  {
    count, compiled := 0, [];
    if !toolFound {
      return;
    }
    var i := 0;
    while i < |files|
      invariant 0 <= i <= |files|
      invariant compiled == Stale(files[..i]) && count == |compiled|
    {
      assert files[..i + 1][..i] == files[..i];
      if files[i].present {
        if FileChanged(files[i].mtime, files[i].outputMtime) {
          compiled := compiled + [i];
          count := count + 1;
        }
      }
      i := i + 1;
    }
    assert files[..i] == files;
  }

  /** An exception `compile_files` raises, by class and the name it concerns. */
  datatype Failure = NameError(name: string)

  /** The resource loop of `compile_files`. When `pyrcc4` is missing it calls
      `click.secho`, but pavement.py never imports `click`, so the call raises
      `NameError` instead of printing a warning. */
  method CompileResources(toolFound: bool, files: seq<SourceFile>) returns (r: Result<seq<nat>, Failure>)
    ensures r.Ok? <==> toolFound
    ensures r.Ok? ==> r.value == Stale(files)
    ensures r.Err? ==> r.error == NameError("click")
  {
    if !toolFound {
      return Err(NameError("click"));
    }
    var count, compiled := CompileAll(true, files);
    return Ok(compiled);
  }

  /** What a run of `compile_files` compiled: the UI files, then the resource
      files or the exception raised in their place. */
  datatype CompileReport = CompileReport(ui: seq<nat>, resources: Result<seq<nat>, Failure>)

  /** `compile_files`: the UI loop always runs to its end (a missing `pyuic4` is only
      reported), and only then does the resource loop run or raise. */
  method CompileFilesTask(uicFound: bool, uiFiles: seq<SourceFile>, rccFound: bool, resFiles: seq<SourceFile>)
    returns (report: CompileReport)
    ensures report.ui == if uicFound then Stale(uiFiles) else []
    ensures report.resources.Ok? <==> rccFound
    ensures report.resources.Ok? ==> report.resources.value == Stale(resFiles)
  {
    var uiCount, ui := CompileAll(uicFound, uiFiles);
    var resources := CompileResources(rccFound, resFiles);
    report := CompileReport(ui, resources);
  }

  /** The file system after the compiler has written, at time `now`, the output of
      every stale file. */
  function AfterCompile(files: seq<SourceFile>, now: real): (r: seq<SourceFile>)
    ensures |r| == |files|
    ensures forall i :: 0 <= i < |files| ==>
      r[i] == if NeedsCompile(files[i]) then files[i].(outputMtime := Some(now)) else files[i]
  {
    if files == [] then []
    else
      var n := |files| - 1;
      var f := files[n];
      AfterCompile(files[..n], now) + [if NeedsCompile(f) then f.(outputMtime := Some(now)) else f]
  }

  /** Running the compile step again right after it finds nothing stale, provided
      every existing source can be stat'ed and is not newer than `now`. */
  lemma {:induction false} CompileIsIdempotent(files: seq<SourceFile>, now: real)
    requires forall i :: 0 <= i < |files| && files[i].present ==>
      files[i].mtime.Some? && files[i].mtime.value <= now
    ensures Stale(AfterCompile(files, now)) == []
  {
    var after := AfterCompile(files, now);
    forall i | 0 <= i < |after| ensures !NeedsCompile(after[i]) {
      var f := files[i];
      if NeedsCompile(f) {
        assert after[i].mtime == f.mtime && after[i].outputMtime == Some(now);
      }
    }
    NothingStale(after);
  }

  lemma {:induction false} NothingStale(files: seq<SourceFile>)
    requires forall i :: 0 <= i < |files| ==> !NeedsCompile(files[i])
    ensures Stale(files) == []
  {
    if files != [] {
      NothingStale(files[..|files| - 1]);
    }
  }
}
