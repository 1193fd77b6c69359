/** `#include "target"` resolution: the included-files list of a document is
    set to a new, empty list, then every target is loaded, relative to the
    document's folder, and appended in match order. A target that cannot be
    loaded ends the run with that exception, keeping the files loaded before
    it. The ACS path drops targets that start with `zcommon`; the DECORATE
    path loads every target. */
module IncludeParser {
  import opened Common
  import opened Text
  import opened FileSystem
  import AcsContext
  import DecorateContext

  /** One match of the include pattern: its `file` group, the quoted target. */
  datatype IncludeMatch = IncludeMatch(file: Group)

  /** `ParseIncludeContent`: the `file` capture of every match, in match order. */
  function Targets(matches: seq<IncludeMatch>): (ts: seq<string>)
    ensures |ts| == |matches|
    ensures forall i :: 0 <= i < |matches| ==> ts[i] == matches[i].file.Value()
  {
    seq(|matches|, i requires 0 <= i < |matches| => matches[i].file.Value())
  }

  /** A target naming the ACS standard header: it starts with `zcommon`,
      ignoring case. The whole target is tested, not its file name. */
  predicate IsZCommon(target: string) {
    StartsWithIgnoreCase(target, "zcommon")
  }

  /** The targets the ACS path loads: the others, in their order. */
  function WithoutZCommon(ts: seq<string>): (kept: seq<string>)
    ensures |kept| <= |ts|
    ensures forall t :: t in kept ==> t in ts && !IsZCommon(t)
    ensures forall t :: t in ts && !IsZCommon(t) ==> t in kept
  {
    if ts == [] then []
    else if IsZCommon(ts[0]) then WithoutZCommon(ts[1..])
    else [ts[0]] + WithoutZCommon(ts[1..])
  }

  /** The filter keeps the relative order: filtering a concatenation is
      concatenating the filtered parts. */
  lemma {:induction false} WithoutZCommonAppend(a: seq<string>, b: seq<string>)
    ensures WithoutZCommon(a + b) == WithoutZCommon(a) + WithoutZCommon(b)
  {
    if a == [] {
      assert a + b == b;
    } else {
      assert (a + b)[0] == a[0];
      assert (a + b)[1..] == a[1..] + b;
      WithoutZCommonAppend(a[1..], b);
    }
  }

  /** When every target names `zcommon`, none is kept. */
  lemma {:induction false} AllZCommonDropped(ts: seq<string>)
    requires forall i :: 0 <= i < |ts| ==> IsZCommon(ts[i])
    ensures WithoutZCommon(ts) == []
  {
    if ts != [] {
      AllZCommonDropped(ts[1..]);
    }
  }

  /** Without `zcommon` targets the filter changes nothing. */
  lemma {:induction false} WithoutZCommonKeepsOthers(ts: seq<string>)
    requires forall i :: 0 <= i < |ts| ==> !IsZCommon(ts[i])
    ensures WithoutZCommon(ts) == ts
  {
    if ts != [] {
      WithoutZCommonKeepsOthers(ts[1..]);
    }
  }

  /** The files loaded before the first failure, and that failure. */
  datatype Loaded<D> = Loaded(files: seq<D>, err: Option<Error>)

  /** Loading the targets one by one in order: a prefix of them is loaded,
      all of them exactly when nothing failed, and a failure is the error of
      the first target that did not load. */
  function LoadAll<D>(targets: seq<string>, load: string -> Result<D>): (r: Loaded<D>)
    ensures |r.files| <= |targets|
    ensures r.err.None? <==> |r.files| == |targets|
    ensures forall i :: 0 <= i < |r.files| ==> load(targets[i]) == Ok(r.files[i])
    ensures r.err.Some? ==> load(targets[|r.files|]) == Err(r.err.value)
  {
    if targets == [] then Loaded([], None)
    else match load(targets[0])
      case Err(e) => Loaded([], Some(e))
      case Ok(f) =>
        var rest := LoadAll(targets[1..], load);
        Loaded([f] + rest.files, rest.err)
  }

  /** The `foreach` of `ParseAsync`: loads every target in turn, appending it
      to the list, and stops at the first one that throws. */
  method LoadIncluded<D>(targets: seq<string>, load: string -> Result<D>) returns (children: seq<D>, err: Option<Error>)
    ensures Loaded(children, err) == LoadAll(targets, load)
  {
    ghost var whole := LoadAll(targets, load);
    children := [];
    var i := 0;
    while i < |targets|
      invariant i <= |whole.files|
      invariant children == whole.files[..i]
    {
      match load(targets[i])
      case Err(e) =>
        assert i == |whole.files|;
        assert children == whole.files;
        return children, Some(e);
      case Ok(f) =>
        children := children + [f];
        i := i + 1;
    }
    assert whole.files[..i] == whole.files;
    err := None;
  }

  /** `AcsFile.FromPathAsync` on the target joined to the including file's folder. */
  function AcsLoader(fs: Files, paths: PathOps, folder: string): string -> Result<AcsContext.AcsFile> {
    t => AcsContext.FromPath(fs, paths, paths.join(folder, t))
  }

  /** `DecorateFile.FromPathAsync` on the target joined to the including file's folder. */
  function DecorateLoader(fs: Files, paths: PathOps, folder: string): string -> Result<DecorateContext.DecorateFile> {
    t => DecorateContext.FromPath(fs, paths, paths.join(folder, t))
  }

  /** `ParseAsync(AcsFile)` as a value: the list is set (even when a load
      throws) to the files loaded from the non-`zcommon` targets, and no other
      field changes. */
  function AcsIncludesParsed(file: AcsContext.AcsFile, matches: seq<IncludeMatch>, fs: Files, paths: PathOps): (s: Step<AcsContext.AcsFile>)
    ensures s.doc == file.(includedFiles := s.doc.includedFiles)
    ensures s.doc.includedFiles.Included?
    ensures Loaded(s.doc.includedFiles.files, s.err)
         == LoadAll(WithoutZCommon(Targets(matches)), AcsLoader(fs, paths, file.absoluteFolderPath))
  {
    var r := LoadAll(WithoutZCommon(Targets(matches)), AcsLoader(fs, paths, file.absoluteFolderPath));
    Step(file.(includedFiles := Included(r.files)), r.err)
  }

  /** `ParseAsync(DecorateFile)` as a value: the same without the filter. */
  function DecorateIncludesParsed(file: DecorateContext.DecorateFile, matches: seq<IncludeMatch>, fs: Files, paths: PathOps): (s: Step<DecorateContext.DecorateFile>)
    ensures s.doc == file.(includedFiles := s.doc.includedFiles)
    ensures s.doc.includedFiles.Included?
    ensures Loaded(s.doc.includedFiles.files, s.err)
         == LoadAll(Targets(matches), DecorateLoader(fs, paths, file.absoluteFolderPath))
  {
    var r := LoadAll(Targets(matches), DecorateLoader(fs, paths, file.absoluteFolderPath));
    Step(file.(includedFiles := Included(r.files)), r.err)
  }

  /** `ParseAsync(AcsFile)`: the list is replaced by a new one, then filled
      by the loop. */
  method ParseAcsIncludes(file: AcsContext.AcsFile, matches: seq<IncludeMatch>, fs: Files, paths: PathOps) returns (s: Step<AcsContext.AcsFile>)
    ensures s == AcsIncludesParsed(file, matches, fs, paths)
  {
    var targets := WithoutZCommon(Targets(matches));
    var children, err := LoadIncluded(targets, AcsLoader(fs, paths, file.absoluteFolderPath));
    s := Step(file.(includedFiles := Included(children)), err);
  }

  /** `ParseAsync(DecorateFile)`: the same loop over every target. */
  method ParseDecorateIncludes(file: DecorateContext.DecorateFile, matches: seq<IncludeMatch>, fs: Files, paths: PathOps) returns (s: Step<DecorateContext.DecorateFile>)
    ensures s == DecorateIncludesParsed(file, matches, fs, paths)
  {
    var children, err := LoadIncluded(Targets(matches), DecorateLoader(fs, paths, file.absoluteFolderPath));
    s := Step(file.(includedFiles := Included(children)), err);
  }

  // ---- What the included files are ----

  /** The i-th included ACS file is the i-th kept target, freshly loaded from
      its path joined to the including folder: its folder is that path's
      directory, so its own includes resolve relative to it. */
  lemma AcsChildLoaded(file: AcsContext.AcsFile, matches: seq<IncludeMatch>, fs: Files, paths: PathOps, i: nat)
    requires i < |AcsIncludesParsed(file, matches, fs, paths).doc.includedFiles.files|
    ensures i < |WithoutZCommon(Targets(matches))|
    ensures
      var path := paths.join(file.absoluteFolderPath, WithoutZCommon(Targets(matches))[i]);
      var child := AcsIncludesParsed(file, matches, fs, paths).doc.includedFiles.files[i];
      && path in fs
      && child.content == fs[path]
      && child.name == paths.fileName(path)
      && Some(child.absoluteFolderPath) == paths.directoryName(path)
      && AcsContext.IsFreshlyLoaded(child)
  {
    var kept := WithoutZCommon(Targets(matches));
    var path := paths.join(file.absoluteFolderPath, kept[i]);
    assert AcsLoader(fs, paths, file.absoluteFolderPath)(kept[i]) == AcsContext.FromPath(fs, paths, path);
  }

  /** The i-th included DECORATE file is the i-th target, freshly loaded from
      its path joined to the including folder. */
  lemma DecorateChildLoaded(file: DecorateContext.DecorateFile, matches: seq<IncludeMatch>, fs: Files, paths: PathOps, i: nat)
    requires i < |DecorateIncludesParsed(file, matches, fs, paths).doc.includedFiles.files|
    ensures i < |matches|
    ensures
      var path := paths.join(file.absoluteFolderPath, matches[i].file.Value());
      var child := DecorateIncludesParsed(file, matches, fs, paths).doc.includedFiles.files[i];
      && path in fs
      && child.content == fs[path]
      && child.name == paths.fileName(path)
      && Some(child.absoluteFolderPath) == paths.directoryName(path)
      && DecorateContext.IsFreshlyLoaded(child)
  {
    var path := paths.join(file.absoluteFolderPath, matches[i].file.Value());
    assert DecorateLoader(fs, paths, file.absoluteFolderPath)(Targets(matches)[i]) == DecorateContext.FromPath(fs, paths, path);
  }

  /** A target missing from disk after loadable ones throws `FileNotFound`
      for its joined path, and the files loaded before it stay in the list. */
  lemma AcsMissingTargetStops(file: AcsContext.AcsFile, matches: seq<IncludeMatch>, fs: Files, paths: PathOps, k: nat)
    requires k < |WithoutZCommon(Targets(matches))|
    requires forall j :: 0 <= j < k ==>
      AcsLoader(fs, paths, file.absoluteFolderPath)(WithoutZCommon(Targets(matches))[j]).Ok?
    requires paths.join(file.absoluteFolderPath, WithoutZCommon(Targets(matches))[k]) !in fs
    ensures AcsIncludesParsed(file, matches, fs, paths).err
         == Some(FileNotFound(paths.join(file.absoluteFolderPath, WithoutZCommon(Targets(matches))[k])))
    ensures |AcsIncludesParsed(file, matches, fs, paths).doc.includedFiles.files| == k
  {
    var kept := WithoutZCommon(Targets(matches));
    var load := AcsLoader(fs, paths, file.absoluteFolderPath);
    PrefixThenFailure(kept, load, k);
  }

  /** The same for a DECORATE file. */
  lemma DecorateMissingTargetStops(file: DecorateContext.DecorateFile, matches: seq<IncludeMatch>, fs: Files, paths: PathOps, k: nat)
    requires k < |matches|
    requires forall j :: 0 <= j < k ==>
      DecorateLoader(fs, paths, file.absoluteFolderPath)(Targets(matches)[j]).Ok?
    requires paths.join(file.absoluteFolderPath, matches[k].file.Value()) !in fs
    ensures DecorateIncludesParsed(file, matches, fs, paths).err
         == Some(FileNotFound(paths.join(file.absoluteFolderPath, matches[k].file.Value())))
    ensures |DecorateIncludesParsed(file, matches, fs, paths).doc.includedFiles.files| == k
  {
    PrefixThenFailure(Targets(matches), DecorateLoader(fs, paths, file.absoluteFolderPath), k);
  }

  /** When the first `k` targets load and the next does not, exactly `k`
      files are loaded and the error is that target's. */
  lemma PrefixThenFailure<D>(targets: seq<string>, load: string -> Result<D>, k: nat)
    requires k < |targets|
    requires forall j :: 0 <= j < k ==> load(targets[j]).Ok?
    requires load(targets[k]).Err?
    ensures |LoadAll(targets, load).files| == k
    ensures LoadAll(targets, load).err == Some(load(targets[k]).error)
  {
  }

  /** A file whose targets all name `zcommon` gets an empty list and no error. */
  lemma OnlyZCommonIncludesNothing(file: AcsContext.AcsFile, matches: seq<IncludeMatch>, fs: Files, paths: PathOps)
    requires forall i :: 0 <= i < |matches| ==> IsZCommon(matches[i].file.Value())
    ensures AcsIncludesParsed(file, matches, fs, paths) == Step(file.(includedFiles := Included([])), None)
  {
    AllZCommonDropped(Targets(matches));
  }

  /** Every DECORATE target is loaded when all of them exist: one included
      file per match. */
  lemma DecorateLoadsEveryTarget(file: DecorateContext.DecorateFile, matches: seq<IncludeMatch>, fs: Files, paths: PathOps)
    requires forall i :: 0 <= i < |matches| ==>
      DecorateLoader(fs, paths, file.absoluteFolderPath)(Targets(matches)[i]).Ok?
    ensures DecorateIncludesParsed(file, matches, fs, paths).err.None?
    ensures |DecorateIncludesParsed(file, matches, fs, paths).doc.includedFiles.files| == |matches|
  {
  }
}
