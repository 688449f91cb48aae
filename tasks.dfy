/** The configuration the `imagemin`, `livereload` and `minifyjs` tasks build
    before handing it to their gulp pipelines. */
module Tasks {
  import opened JsStrings
  import opened Hosts
  import opened ItemArrays

  /** What a task sets up: nothing, when it has nothing to work on, or the
      directories it was given and the file patterns it works on. */
  datatype FilePlan = NothingToDo | Files(dirs: seq<string>, patterns: seq<string>)

  /** `path.join(dir, '**', '*')`: everything below a directory. */
  function Glob(join: seq<string> -> string, dir: string): string
  {
    join([dir, "**", "*"])
  }

  /** What adding the glob of each directory in turn to an empty `ItemArray`
      leaves in it. */
  function Globs(join: seq<string> -> string, dirs: seq<string>): seq<string>
  {
    if dirs == [] then []
    else Globs(join, dirs[..|dirs| - 1]) + Leaves(Str(Glob(join, dirs[|dirs| - 1])), ',')
  }

  /** The first directory that is not a directory, scanning in order. */
  function FirstInvalid(isDir: string -> bool, dirs: seq<string>): Option<string>
  {
    if dirs == [] then None
    else if !isDir(dirs[0]) then Some(dirs[0])
    else FirstInvalid(isDir, dirs[1..])
  }

  /** All directories valid: no invalid one is reported. */
  lemma {:induction false} FirstInvalidNone(isDir: string -> bool, dirs: seq<string>)
    requires forall i :: 0 <= i < |dirs| ==> isDir(dirs[i])
    ensures FirstInvalid(isDir, dirs) == None
  {
    if dirs != [] {
      FirstInvalidNone(isDir, dirs[1..]);
    }
  }

  /** The first directory that is not valid is the one reported. */
  lemma {:induction false} FirstInvalidAt(isDir: string -> bool, dirs: seq<string>, k: nat)
    requires k < |dirs| && !isDir(dirs[k])
    requires forall i :: 0 <= i < k ==> isDir(dirs[i])
    ensures FirstInvalid(isDir, dirs) == Some(dirs[k])
  {
    if k > 0 {
      FirstInvalidAt(isDir, dirs[1..], k - 1);
    }
  }

  /** Directories after valid ones are examined as if alone. */
  lemma {:induction false} FirstInvalidAppend(isDir: string -> bool, xs: seq<string>, ys: seq<string>)
    requires FirstInvalid(isDir, xs) == None
    ensures FirstInvalid(isDir, xs + ys) == FirstInvalid(isDir, ys)
  {
    if xs != [] {
      assert (xs + ys)[0] == xs[0];
      assert (xs + ys)[1..] == xs[1..] + ys;
      FirstInvalidAppend(isDir, xs[1..], ys);
    } else {
      assert xs + ys == ys;
    }
  }

  /** One step of a validation loop: a valid directory extends the valid
      prefix, an invalid one is the first invalid directory. */
  lemma FirstInvalidStep(isDir: string -> bool, dirs: seq<string>, idx: nat)
    requires idx < |dirs| && FirstInvalid(isDir, dirs[..idx]) == None
    ensures isDir(dirs[idx]) ==> FirstInvalid(isDir, dirs[..idx + 1]) == None
    ensures !isDir(dirs[idx]) ==> FirstInvalid(isDir, dirs) == Some(dirs[idx])
  {
    if isDir(dirs[idx]) {
      assert dirs[..idx + 1] == dirs[..idx] + [dirs[idx]];
      FirstInvalidAppend(isDir, dirs[..idx], [dirs[idx]]);
      assert FirstInvalid(isDir, [dirs[idx]]) == FirstInvalid(isDir, []);
    } else {
      assert dirs == dirs[..idx] + dirs[idx..];
      FirstInvalidAppend(isDir, dirs[..idx], dirs[idx..]);
      assert dirs[idx..][0] == dirs[idx];
    }
  }

  /** When every glob is a clean entry (non-empty, without a comma or
      surrounding white space), the globs are one per directory, in order:
      the pairing of `srcfiles.items[idx]` with `srcdirs.items[idx]`. */
  lemma {:induction false} GlobsOnePerDir(join: seq<string> -> string, dirs: seq<string>)
    requires forall i :: 0 <= i < |dirs| ==> Clean(Glob(join, dirs[i]), ',')
    ensures |Globs(join, dirs)| == |dirs|
    ensures forall i :: 0 <= i < |dirs| ==> Globs(join, dirs)[i] == Glob(join, dirs[i])
  {
    if dirs != [] {
      var n := |dirs| - 1;
      assert forall i :: 0 <= i < n ==> dirs[..n][i] == dirs[i];
      GlobsOnePerDir(join, dirs[..n]);
      CleanValuePushesItself(Glob(join, dirs[n]), ',');
      var front := Globs(join, dirs[..n]);
      assert Globs(join, dirs) == front + [Glob(join, dirs[n])];
      forall i | 0 <= i < |dirs|
        ensures Globs(join, dirs)[i] == Glob(join, dirs[i])
      {
        if i < n {
          assert Globs(join, dirs)[i] == front[i];
        }
      }
    }
  }

  lemma GlobsSnoc(join: seq<string> -> string, dirs: seq<string>, i: nat)
    requires i < |dirs|
    ensures Globs(join, dirs[..i + 1]) == Globs(join, dirs[..i]) + Leaves(Str(Glob(join, dirs[i])), ',')
  {
    assert dirs[..i + 1][..i] == dirs[..i];
  }

  /** Regrouping a concatenation, kept apart so that the loop below does not
      have to find it among the terms of `Leaves`. */
  lemma Associate3(a: seq<string>, b: seq<string>, c: seq<string>)
    ensures (a + b) + c == a + (b + c)
  {
  }

  /** The loop `_imagemin` and `_livereload` share: each directory in turn
      is checked, the first that is not a directory ending the run, and its
      glob is added to the list. */
  method AddGlobs(host: Host, dirs: seq<string>, srcfiles: ItemArray) returns (invalid: Option<string>)
    requires srcfiles.filedelim == ','
    modifies srcfiles
    ensures invalid == FirstInvalid(host.isDir, dirs)
    ensures invalid.None? ==> srcfiles.items == old(srcfiles.items) + Globs(host.join, dirs)
  {
    ghost var before := srcfiles.items;
    var idx := 0;
    while idx < |dirs|
      invariant idx <= |dirs|
      invariant FirstInvalid(host.isDir, dirs[..idx]) == None
      invariant srcfiles.items == before + Globs(host.join, dirs[..idx])
    {
      FirstInvalidStep(host.isDir, dirs, idx);
      if !host.isDir(dirs[idx]) {
        return Some(dirs[idx]);
      }
      var g := Glob(host.join, dirs[idx]);
      ghost var mid := srcfiles.items;
      srcfiles.Add(Str(g));
      assert srcfiles.items == mid + Leaves(Str(g), ',');
      GlobsSnoc(host.join, dirs, idx);
      Associate3(before, Globs(host.join, dirs[..idx]), Leaves(Str(g), ','));
      idx := idx + 1;
    }
    assert dirs[..idx] == dirs;
    return None;
  }

  /** `_imagemin`: no directories means nothing to do; otherwise the first
      directory that is not one ends the run, and each one contributes its
      glob. */
  function ImageminPlan(host: Host, imagemin: string): Outcome<FilePlan>
  {
    ImagePlan(host, Leaves(Str(imagemin), ','))
  }

  /** The plan of `_imagemin` for the directories the argument lists. */
  function ImagePlan(host: Host, dirs: seq<string>): Outcome<FilePlan>
  {
    if dirs == [] then Done(NothingToDo)
    else match FirstInvalid(host.isDir, dirs)
      case Some(dir) => Aborted(InvalidImageDir(dir))
      case None => Done(Files(dirs, Globs(host.join, dirs)))
  }

  /** The validation loop of `_imagemin`, over two `ItemArray`s. */
  method Imagemin(host: Host, imagemin: string) returns (outcome: Outcome<FilePlan>)
    ensures outcome == ImageminPlan(host, imagemin)
  {
    var srcdirs := new ItemArray(Str(imagemin), ',');
    var srcfiles := new ItemArray(Arr([]), ',');
    var dirs := srcdirs.items;
    assert ImageminPlan(host, imagemin) == ImagePlan(host, dirs);
    if |dirs| == 0 {
      assert ImagePlan(host, dirs) == Done(NothingToDo);
      return Done(NothingToDo);
    }
    var invalid := AddGlobs(host, dirs, srcfiles);
    if invalid.Some? {
      assert ImagePlan(host, dirs) == Aborted(InvalidImageDir(invalid.value));
      return Aborted(InvalidImageDir(invalid.value));
    }
    assert srcfiles.items == Globs(host.join, dirs);
    outcome := Done(Files(dirs, srcfiles.items));
  }

  /** An empty or blank argument gives nothing to do. */
  lemma ImageminNothing(host: Host, imagemin: string)
    requires Leaves(Str(imagemin), ',') == []
    ensures ImageminPlan(host, imagemin) == Done(NothingToDo)
  {
  }

  /** With valid directories whose globs are clean, `_imagemin` minifies the
      images below each directory, one pattern per directory, in order. */
  lemma ImageminPairs(host: Host, imagemin: string)
    requires var dirs := Leaves(Str(imagemin), ',');
             && dirs != []
             && (forall i :: 0 <= i < |dirs| ==> host.isDir(dirs[i]))
             && (forall i :: 0 <= i < |dirs| ==> Clean(Glob(host.join, dirs[i]), ','))
    ensures var dirs := Leaves(Str(imagemin), ',');
            var plan := ImageminPlan(host, imagemin);
            && plan.Done? && plan.value.Files?
            && plan.value.dirs == dirs
            && |plan.value.patterns| == |dirs|
            && forall i :: 0 <= i < |dirs| ==> plan.value.patterns[i] == Glob(host.join, dirs[i])
  {
    var dirs := Leaves(Str(imagemin), ',');
    FirstInvalidNone(host.isDir, dirs);
    GlobsOnePerDir(host.join, dirs);
  }

  /** A directory that is not one ends the run, naming the first such. */
  lemma ImageminInvalid(host: Host, imagemin: string, k: nat)
    requires var dirs := Leaves(Str(imagemin), ',');
             && k < |dirs| && !host.isDir(dirs[k])
             && forall i :: 0 <= i < k ==> host.isDir(dirs[i])
    ensures ImageminPlan(host, imagemin) == Aborted(InvalidImageDir(Leaves(Str(imagemin), ',')[k]))
  {
    FirstInvalidAt(host.isDir, Leaves(Str(imagemin), ','), k);
  }

  /** The `replace(/\\/g, '/')` rewrite of each watched pattern. */
  function ForwardSlashesAll(patterns: seq<string>): seq<string>
  {
    seq(|patterns|, i requires 0 <= i < |patterns| => ForwardSlashes(patterns[i]))
  }

  /** What `_livereload` adds for the stylesheet task, when one was created
      in this run: the CSS files pattern, wrapped in an array. */
  function StylesheetEntries(cssfiles: Option<string>): seq<string>
  {
    match cssfiles
    case Some(pattern) => Leaves(Arr([Str(pattern)]), ',')
    case None => []
  }

  /** `_livereload`: the first directory that is not one ends the run; the
      glob of each directory and the stylesheet task's CSS files are
      watched, with forward slashes; with nothing to watch there is nothing
      to do. */
  function LivereloadPlan(host: Host, livereload: string, cssfiles: Option<string>): Outcome<FilePlan>
  {
    ReloadPlan(host, Leaves(Str(livereload), ','), cssfiles)
  }

  /** The plan of `_livereload` for the directories the argument lists. */
  function ReloadPlan(host: Host, dirs: seq<string>, cssfiles: Option<string>): Outcome<FilePlan>
  {
    match FirstInvalid(host.isDir, dirs)
    case Some(dir) => Aborted(InvalidReloadDir(dir))
    case None => Done(WatchList(dirs, Globs(host.join, dirs) + StylesheetEntries(cssfiles)))
  }

  /** Nothing to do for no files, otherwise the files with forward slashes. */
  function WatchList(dirs: seq<string>, files: seq<string>): FilePlan
  {
    if files == [] then NothingToDo else Files(dirs, ForwardSlashesAll(files))
  }

  /** The loop of lines 479 to 481: each entry of the list rewritten in
      place. */
  method RewriteSlashes(list: ItemArray)
    modifies list
    ensures list.items == ForwardSlashesAll(old(list.items))
  {
    var idx := 0;
    while idx < |list.items|
      invariant |list.items| == |old(list.items)| && idx <= |list.items|
      invariant forall i :: 0 <= i < idx ==> list.items[i] == ForwardSlashes(old(list.items)[i])
      invariant forall i :: idx <= i < |list.items| ==> list.items[i] == old(list.items)[i]
    {
      list.items := list.items[idx := ForwardSlashes(list.items[idx])];
      idx := idx + 1;
    }
  }

  /** The validation loop, the stylesheet entry and the in-place slash
      rewrite of `_livereload`. */
  method Livereload(host: Host, livereload: string, cssfiles: Option<string>)
    returns (outcome: Outcome<FilePlan>)
    ensures outcome == LivereloadPlan(host, livereload, cssfiles)
  {
    var srcdirs := new ItemArray(Str(livereload), ',');
    var srcfiles := new ItemArray(Arr([]), ',');
    var dirs := srcdirs.items;
    var invalid := AddGlobs(host, dirs, srcfiles);
    if invalid.Some? {
      return Aborted(InvalidReloadDir(invalid.value));
    }
    ghost var before := srcfiles.items;
    if cssfiles.Some? {
      srcfiles.Add(Arr([Str(cssfiles.value)]));
    }
    assert srcfiles.items == before + StylesheetEntries(cssfiles);
    assert before == Globs(host.join, dirs);
    assert FirstInvalid(host.isDir, dirs) == None;
    if |srcfiles.items| == 0 {
      return Done(NothingToDo);
    }
    ghost var files := srcfiles.items;
    RewriteSlashes(srcfiles);
    assert Files(dirs, srcfiles.items) == WatchList(dirs, files);
    outcome := Done(Files(dirs, srcfiles.items));
  }

  /** The stylesheet task's pattern, when clean, is watched as it is. */
  lemma StylesheetEntryClean(css: string)
    requires Clean(css, ',')
    ensures StylesheetEntries(Some(css)) == [css]
  {
    CleanValuePushesItself(css, ',');
    assert [Str(css)][..0] == [];
    assert Leaves(Arr([Str(css)]), ',') == LeavesOf([Str(css)], ',');
    assert LeavesOf([Str(css)], ',') == LeavesOf([], ',') + Leaves(Str(css), ',');
  }

  /** With valid directories and clean patterns, `_livereload` watches the
      glob of each directory in order, then the stylesheet task's CSS files,
      all with forward slashes only. */
  lemma LivereloadWatches(host: Host, dirs: seq<string>, css: string)
    requires forall i :: 0 <= i < |dirs| ==> host.isDir(dirs[i])
    requires forall i :: 0 <= i < |dirs| ==> Clean(Glob(host.join, dirs[i]), ',')
    requires Clean(css, ',')
    ensures var plan := ReloadPlan(host, dirs, Some(css));
            && plan.Done? && plan.value.Files?
            && plan.value.dirs == dirs
            && |plan.value.patterns| == |dirs| + 1
            && (forall i :: 0 <= i < |dirs| ==> plan.value.patterns[i] == ForwardSlashes(Glob(host.join, dirs[i])))
            && plan.value.patterns[|dirs|] == ForwardSlashes(css)
            && forall i :: 0 <= i < |plan.value.patterns| ==> '\\' !in plan.value.patterns[i]
  {
    FirstInvalidNone(host.isDir, dirs);
    GlobsOnePerDir(host.join, dirs);
    StylesheetEntryClean(css);
    var files := Globs(host.join, dirs) + [css];
    assert ReloadPlan(host, dirs, Some(css)) == Done(WatchList(dirs, files));
    var patterns := ForwardSlashesAll(files);
    forall i | 0 <= i < |patterns|
      ensures '\\' !in patterns[i]
    {
      ForwardSlashesSpec(files[i]);
    }
    forall i | 0 <= i < |dirs|
      ensures patterns[i] == ForwardSlashes(Glob(host.join, dirs[i]))
    {
      assert files[i] == Globs(host.join, dirs)[i];
    }
  }

  /** Without the stylesheet task (the `livereload` task on its own), valid
      directories with clean globs are watched as one glob per directory, in
      order, with forward slashes. */
  lemma LivereloadStandalone(host: Host, dirs: seq<string>)
    requires dirs != []
    requires forall i :: 0 <= i < |dirs| ==> host.isDir(dirs[i])
    requires forall i :: 0 <= i < |dirs| ==> Clean(Glob(host.join, dirs[i]), ',')
    ensures var plan := ReloadPlan(host, dirs, None);
            && plan.Done? && plan.value.Files?
            && plan.value.dirs == dirs
            && |plan.value.patterns| == |dirs|
            && forall i :: 0 <= i < |dirs| ==> plan.value.patterns[i] == ForwardSlashes(Glob(host.join, dirs[i]))
  {
    FirstInvalidNone(host.isDir, dirs);
    GlobsOnePerDir(host.join, dirs);
    assert Globs(host.join, dirs) + StylesheetEntries(None) == Globs(host.join, dirs);
  }

  /** Without directories and without the stylesheet task there is nothing
      to watch. */
  lemma LivereloadNothing(host: Host)
    ensures ReloadPlan(host, [], None) == Done(NothingToDo)
  {
  }

  /** A directory that is not one ends the run, naming the first such. */
  lemma LivereloadInvalid(host: Host, dirs: seq<string>, cssfiles: Option<string>, k: nat)
    requires k < |dirs| && !host.isDir(dirs[k])
    requires forall i :: 0 <= i < k ==> host.isDir(dirs[i])
    ensures ReloadPlan(host, dirs, cssfiles) == Aborted(InvalidReloadDir(dirs[k]))
  {
    FirstInvalidAt(host.isDir, dirs, k);
  }

  /** What `_minifyjs` sets up: the source pattern, the destination, the
      name of the bundle (used only when a bundle name was given), the
      source maps to delete first, the label it logs for the bundle, and
      whether source maps are written. */
  datatype MinifyPlan = MinifyPlan(
    sources: string, destination: string, bundle: Option<string>,
    mapPattern: string, bundleLabel: string, sourcemap: bool)

  const MinSuffix: string := ".min.js"

  /** The bundle name as written: the test `minifyjsf === '' &&
      minifyjsf.endsWith('.js')` can never hold, so the suffix is always
      appended. */
  function MinifiedName(minifyjsf: string): string
  {
    if minifyjsf == "" && EndsWith(minifyjsf, ".js") then minifyjsf else minifyjsf + MinSuffix
  }

  /** The label logged for the bundle. */
  function BundleLabel(name: string): string
  {
    if name == "" then "Not provided" else name
  }

  /** `_minifyjs`, with the working directory as a parameter: an empty source
      or destination means the working directory. */
  function MinifyjsPlan(join: seq<string> -> string, cwd: string,
                        minifyjss: string, minifyjsd: string, minifyjsf: string,
                        sourcemap: bool): MinifyPlan
  {
    var dest := if minifyjsd == "" then cwd else minifyjsd;
    var name := MinifiedName(minifyjsf);
    MinifyPlan(join([if minifyjss == "" then cwd else minifyjss, "*.js"]), dest,
               if minifyjsf == "" then None else Some(name),
               join([dest, "*.map"]), BundleLabel(name), sourcemap)
  }

  /** As written the suffix is appended to every name, also to one that
      already ends in `.js`, and the empty name is never reported as not
      provided. */
  lemma MinifiedNameAlwaysSuffixed(minifyjsf: string)
    ensures MinifiedName(minifyjsf) == minifyjsf + MinSuffix
    ensures EndsWith(minifyjsf, ".js") ==> MinifiedName(minifyjsf) != minifyjsf
    ensures BundleLabel(MinifiedName(minifyjsf)) != "Not provided"
  {
    var r := minifyjsf + MinSuffix;
    if EndsWith(minifyjsf, ".js") {
      assert |r| > |minifyjsf|;
    }
    assert r[|r| - 1] == 's' != "Not provided"[11];
  }

  /** The discrepancy on concrete names: `app.js` becomes `app.js.min.js`,
      and with no name the log shows `.min.js`. */
  lemma MinifiedNameAsWritten()
    ensures MinifiedName("app.js") == "app.js.min.js"
    ensures BundleLabel(MinifiedName("")) == ".min.js"
  {
    MinifiedNameAlwaysSuffixed("app.js");
    MinifiedNameAlwaysSuffixed("");
  }

  /** The evidently intended bundle name: none stays none, a name already
      ending in `.js` is kept, any other gets `.min.js`. */
  function IntendedMinifiedName(minifyjsf: string): string
  {
    if minifyjsf == "" || EndsWith(minifyjsf, ".js") then minifyjsf else minifyjsf + MinSuffix
  }

  /** The intended name keeps a name that ends in `.js`, suffixes any other
      given name with `.min.js`, and keeps an empty name, which the log
      reports as not provided; naming twice changes nothing. */
  lemma IntendedMinifiedNameSpec(minifyjsf: string)
    ensures var name := IntendedMinifiedName(minifyjsf);
            && (minifyjsf != "" ==> EndsWith(name, ".js"))
            && (minifyjsf == "" ==> BundleLabel(name) == "Not provided")
            && (EndsWith(minifyjsf, ".js") ==> name == minifyjsf)
            && (minifyjsf != "" && !EndsWith(minifyjsf, ".js") ==> name == minifyjsf + MinSuffix)
            && IntendedMinifiedName(name) == name
  {
    var name := IntendedMinifiedName(minifyjsf);
    if minifyjsf != "" && !EndsWith(minifyjsf, ".js") {
      assert name[|name| - 3..] == ".js";
    }
  }

  /** The plan draws from the working directory when no source is given,
      writes to it when no destination is given, bundles only under a given
      name, and deletes the maps in the destination. */
  lemma MinifyjsPlanSpec(join: seq<string> -> string, cwd: string,
                         minifyjss: string, minifyjsd: string, minifyjsf: string, sourcemap: bool)
    ensures var plan := MinifyjsPlan(join, cwd, minifyjss, minifyjsd, minifyjsf, sourcemap);
            && (minifyjss == "" ==> plan.sources == join([cwd, "*.js"]))
            && (minifyjss != "" ==> plan.sources == join([minifyjss, "*.js"]))
            && (minifyjsd == "" ==> plan.destination == cwd)
            && (minifyjsd != "" ==> plan.destination == minifyjsd)
            && (plan.bundle.Some? <==> minifyjsf != "")
            && (plan.bundle.Some? ==> plan.bundle.value == minifyjsf + MinSuffix)
            && plan.mapPattern == join([plan.destination, "*.map"])
            && plan.sourcemap == sourcemap
  {
    MinifiedNameAlwaysSuffixed(minifyjsf);
  }
}
