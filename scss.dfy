/** The `Scss` constructor: resolving the SCSS and CSS directories, the entry
    files, the output style and the source-map flag before any stylesheet is
    compiled. */
module Scss {
  import opened JsStrings
  import opened Hosts

  /** The output styles the compiler accepts. */
  const Styles: seq<string> := ["compact", "compressed", "expanded", "nested"]

  /** The entry file used when none is named. */
  const DefaultEntry: string := "style.scss"

  /** The constructor's arguments, as the command line gives them. */
  datatype ScssArgs = ScssArgs(
    dev: bool, style: string, sourcemap: bool,
    scssdir: string, cssdir: string, scssfiles: string, verbose: bool)

  /** The resolved configuration: the fields the constructor sets. */
  datatype ScssConfig = ScssConfig(
    dev: bool, verbose: bool,
    scssdir: string, cssdir: string, cssfiles: string,
    scssfiles: seq<string>, scssfilepaths: seq<string>,
    style: string, sourcemap: bool)

  /** Where to look for a missing CSS directory, in order: a sibling `css`,
      then a child `css` of the SCSS directory. */
  function CssCandidates(join: seq<string> -> string, scssdir: string): seq<string>
  {
    [join([scssdir, "..", "css"]), join([scssdir, "css"])]
  }

  /** Where to look for a missing SCSS directory, in order: a sibling `scss`,
      then a child `scss` of the CSS directory. */
  function ScssCandidates(join: seq<string> -> string, cssdir: string): seq<string>
  {
    [join([cssdir, "..", "scss"]), join([cssdir, "scss"])]
  }

  /** The first candidate that is a directory, or "" when none is: the value
      the search loop leaves in a field that starts out as "". */
  function Locate(isDir: string -> bool, candidates: seq<string>): string
  {
    if candidates == [] then ""
    else if isDir(candidates[0]) then candidates[0]
    else Locate(isDir, candidates[1..])
  }

  /** Without a directory among the candidates the search finds nothing. */
  lemma {:induction false} LocateNone(isDir: string -> bool, candidates: seq<string>)
    requires forall i :: 0 <= i < |candidates| ==> !isDir(candidates[i])
    ensures Locate(isDir, candidates) == ""
  {
    if candidates != [] {
      LocateNone(isDir, candidates[1..]);
    }
  }

  /** The search finds the first candidate that is a directory. */
  lemma {:induction false} LocateFirst(isDir: string -> bool, candidates: seq<string>, k: nat)
    requires k < |candidates| && isDir(candidates[k])
    requires forall j :: 0 <= j < k ==> !isDir(candidates[j])
    ensures Locate(isDir, candidates) == candidates[k]
  {
    if k > 0 {
      LocateFirst(isDir, candidates[1..], k - 1);
    }
  }

  /** Whatever the search finds is one of the candidates and a directory. */
  lemma {:induction false} LocateFound(isDir: string -> bool, candidates: seq<string>)
    requires Locate(isDir, candidates) != ""
    ensures Locate(isDir, candidates) in candidates && isDir(Locate(isDir, candidates))
  {
    if !isDir(candidates[0]) {
      LocateFound(isDir, candidates[1..]);
    }
  }

  /** The `for ... in` search loop with its early `break`. */
  method LocateDirectory(isDir: string -> bool, candidates: seq<string>) returns (found: string)
    ensures found == Locate(isDir, candidates)
  {
    found := "";
    var idx := 0;
    while idx < |candidates|
      invariant idx <= |candidates|
      invariant found == "" && Locate(isDir, candidates) == Locate(isDir, candidates[idx..])
    {
      if isDir(candidates[idx]) {
        found := candidates[idx];
        break;
      }
      assert candidates[idx..][1..] == candidates[idx + 1..];
      idx := idx + 1;
    }
  }

  /** The directory resolution of lines 178 to 232: abort without either
      directory; validate the SCSS directory and, if the CSS directory is
      missing, look for it; then validate the CSS directory and, if the SCSS
      directory is missing, look for that. */
  function ResolveDirs(host: Host, scssdir: string, cssdir: string): Outcome<(string, string)>
  {
    if scssdir == "" && cssdir == "" then Aborted(InsufficientArguments)
    else if scssdir != "" && !host.isDir(scssdir) then Aborted(InvalidScssDir(scssdir))
    else if scssdir != "" && cssdir == "" then
      var found := Locate(host.isDir, CssCandidates(host.join, scssdir));
      if found == "" then Aborted(CssDirNotFound) else Done((scssdir, found))
    else if !host.isDir(cssdir) then Aborted(InvalidCssDir(cssdir))
    else if scssdir == "" then
      var found := Locate(host.isDir, ScssCandidates(host.join, cssdir));
      if found == "" then Aborted(ScssDirNotFound) else Done((found, cssdir))
    else Done((scssdir, cssdir))
  }

  /** Lines 178 to 232 step by step: each directory that is given is checked,
      and each that is missing is searched for next to the other. */
  method FindDirectories(host: Host, scssdir: string, cssdir: string)
    returns (dirs: Outcome<(string, string)>)
    ensures dirs == ResolveDirs(host, scssdir, cssdir)
  {
    if scssdir == "" && cssdir == "" {
      return Aborted(InsufficientArguments);
    }
    var foundScss, foundCss := "", "";
    if scssdir != "" {
      if !host.isDir(scssdir) {
        return Aborted(InvalidScssDir(scssdir));
      }
      foundScss := scssdir;
      if cssdir == "" {
        foundCss := LocateDirectory(host.isDir, CssCandidates(host.join, foundScss));
        if foundCss == "" {
          return Aborted(CssDirNotFound);
        }
      }
    }
    if cssdir != "" {
      if !host.isDir(cssdir) {
        return Aborted(InvalidCssDir(cssdir));
      }
      foundCss := cssdir;
      if scssdir == "" {
        foundScss := LocateDirectory(host.isDir, ScssCandidates(host.join, foundCss));
        if foundScss == "" {
          return Aborted(ScssDirNotFound);
        }
      }
    }
    dirs := Done((foundScss, foundCss));
  }

  /** The entry file names: `style.scss` when none are named, otherwise the
      comma-separated list as it is, without trimming. */
  function EntryNames(scssfiles: string): (names: seq<string>)
    ensures |names| >= 1
  {
    if scssfiles == "" then [DefaultEntry] else Split(scssfiles, ',')
  }

  /** The entry file paths under `scssdir`, or the first one that is not a
      file. */
  function CheckEntries(host: Host, scssdir: string, names: seq<string>): Outcome<seq<string>>
  {
    if names == [] then Done([])
    else
      var path := host.join([scssdir, names[0]]);
      if !host.isFile(path) then Aborted(InvalidScssFile(path))
      else match CheckEntries(host, scssdir, names[1..])
        case Done(paths) => Done([path] + paths)
        case Aborted(reason) => Aborted(reason)
  }

  /** Entry files that all exist give one path per name, in order, each the
      join of the SCSS directory and the name. */
  lemma {:induction false} CheckEntriesDone(host: Host, scssdir: string, names: seq<string>)
    requires forall i :: 0 <= i < |names| ==> host.isFile(host.join([scssdir, names[i]]))
    ensures CheckEntries(host, scssdir, names).Done?
    ensures var paths := CheckEntries(host, scssdir, names).value;
            && |paths| == |names|
            && forall i :: 0 <= i < |names| ==> paths[i] == host.join([scssdir, names[i]])
  {
    if names != [] {
      CheckEntriesDone(host, scssdir, names[1..]);
    }
  }

  /** The first entry file that does not exist aborts, naming its path. */
  lemma {:induction false} CheckEntriesAborted(host: Host, scssdir: string, names: seq<string>, k: nat)
    requires k < |names|
    requires forall i :: 0 <= i < k ==> host.isFile(host.join([scssdir, names[i]]))
    requires !host.isFile(host.join([scssdir, names[k]]))
    ensures CheckEntries(host, scssdir, names) == Aborted(InvalidScssFile(host.join([scssdir, names[k]])))
  {
    if k > 0 {
      CheckEntriesAborted(host, scssdir, names[1..], k - 1);
    }
  }

  /** On success every entry path is a file. */
  lemma {:induction false} CheckEntriesFiles(host: Host, scssdir: string, names: seq<string>)
    requires CheckEntries(host, scssdir, names).Done?
    ensures var paths := CheckEntries(host, scssdir, names).value;
            && |paths| == |names|
            && forall i :: 0 <= i < |names| ==>
                 paths[i] == host.join([scssdir, names[i]]) && host.isFile(paths[i])
  {
    if names != [] {
      CheckEntriesFiles(host, scssdir, names[1..]);
    }
  }

  /** The entry file loop of lines 237 to 245: each name is joined to the SCSS
      directory and kept if it is a file; the first that is not ends the run. */
  method CheckEntryFiles(host: Host, scssdir: string, names: seq<string>)
    returns (files: seq<string>, paths: seq<string>, bad: Option<string>)
    ensures bad.None? ==> files == names && CheckEntries(host, scssdir, names) == Done(paths)
    ensures bad.Some? ==> CheckEntries(host, scssdir, names) == Aborted(InvalidScssFile(bad.value))
  {
    files, paths, bad := [], [], None;
    var idx := 0;
    while idx < |names|
      invariant idx <= |names|
      invariant files == names[..idx] && |paths| == idx
      invariant forall i :: 0 <= i < idx ==> paths[i] == host.join([scssdir, names[i]])
      invariant forall i :: 0 <= i < idx ==> host.isFile(host.join([scssdir, names[i]]))
    {
      var path := host.join([scssdir, names[idx]]);
      if host.isFile(path) {
        files := files + [names[idx]];
        paths := paths + [path];
      } else {
        CheckEntriesAborted(host, scssdir, names, idx);
        bad := Some(path);
        return;
      }
      idx := idx + 1;
    }
    assert files == names;
    CheckEntriesDone(host, scssdir, names);
    assert CheckEntries(host, scssdir, names).value == paths;
  }

  /** The style asked for: the build's default when none is given,
      `expanded` for development and `compressed` for production, otherwise
      the given style in lower case. */
  function EffectiveStyle(style: string, dev: bool): string
  {
    if style == "" then (if dev then "expanded" else "compressed") else Lower(style)
  }

  /** The whole constructor as one value: the configuration, or the first
      fatal error in the order the constructor checks them. */
  function Resolve(host: Host, args: ScssArgs): Outcome<ScssConfig>
  {
    match ResolveDirs(host, args.scssdir, args.cssdir)
    case Aborted(reason) => Aborted(reason)
    case Done(dirs) =>
      var names := EntryNames(args.scssfiles);
      match CheckEntries(host, dirs.0, names)
      case Aborted(reason) => Aborted(reason)
      case Done(paths) =>
        var style := EffectiveStyle(args.style, args.dev);
        if style !in Styles then Aborted(InvalidStyle(args.style))
        else Done(ScssConfig(args.dev, args.verbose, dirs.0, dirs.1, host.join([dirs.1, "*.css"]),
                             names, paths, style, args.sourcemap || args.dev))
  }

  /** Without either directory the build cannot start. */
  lemma NoDirectoryAborts(host: Host, args: ScssArgs)
    requires args.scssdir == "" && args.cssdir == ""
    ensures Resolve(host, args) == Aborted(InsufficientArguments)
  {
  }

  /** A given SCSS directory that is not a directory ends the run. */
  lemma InvalidScssDirAborts(host: Host, args: ScssArgs)
    requires args.scssdir != "" && !host.isDir(args.scssdir)
    ensures Resolve(host, args) == Aborted(InvalidScssDir(args.scssdir))
  {
  }

  /** A given CSS directory that is not a directory ends the run, once the
      SCSS directory, if given, has passed. */
  lemma InvalidCssDirAborts(host: Host, args: ScssArgs)
    requires args.cssdir != "" && !host.isDir(args.cssdir)
    requires args.scssdir == "" || host.isDir(args.scssdir)
    ensures Resolve(host, args) == Aborted(InvalidCssDir(args.cssdir))
  {
  }

  /** Two given directories that exist are kept as they are. */
  lemma BothDirsKept(host: Host, scssdir: string, cssdir: string)
    requires scssdir != "" && cssdir != ""
    requires host.isDir(scssdir) && host.isDir(cssdir)
    ensures ResolveDirs(host, scssdir, cssdir) == Done((scssdir, cssdir))
  {
  }

  /** A missing CSS directory is the sibling `css` directory if there is one,
      else the child `css` directory, and the run ends if neither exists. */
  lemma CssDirInferred(host: Host, scssdir: string)
    requires scssdir != "" && host.isDir(scssdir)
    requires JoinNeverEmpty(host.join)
    ensures var sibling, child := host.join([scssdir, "..", "css"]), host.join([scssdir, "css"]);
            ResolveDirs(host, scssdir, "")
            == if host.isDir(sibling) then Done((scssdir, sibling))
               else if host.isDir(child) then Done((scssdir, child))
               else Aborted(CssDirNotFound)
  {
    var cands := CssCandidates(host.join, scssdir);
    assert cands[0] != "" && cands[1] != "";
    assert cands[1..][1..] == [];
    assert Locate(host.isDir, cands[1..]) == if host.isDir(cands[1]) then cands[1] else "";
  }

  /** A missing SCSS directory is the sibling `scss` directory if there is
      one, else the child `scss` directory, and the run ends if neither
      exists. */
  lemma ScssDirInferred(host: Host, cssdir: string)
    requires cssdir != "" && host.isDir(cssdir)
    requires JoinNeverEmpty(host.join)
    ensures var sibling, child := host.join([cssdir, "..", "scss"]), host.join([cssdir, "scss"]);
            ResolveDirs(host, "", cssdir)
            == if host.isDir(sibling) then Done((sibling, cssdir))
               else if host.isDir(child) then Done((child, cssdir))
               else Aborted(ScssDirNotFound)
  {
    var cands := ScssCandidates(host.join, cssdir);
    assert cands[0] != "" && cands[1] != "";
    assert cands[1..][1..] == [];
    assert Locate(host.isDir, cands[1..]) == if host.isDir(cands[1]) then cands[1] else "";
  }

  /** Whatever the directory resolution keeps are two existing directories,
      each the given one when it was given. */
  lemma ResolvedDirsExist(host: Host, scssdir: string, cssdir: string)
    requires ResolveDirs(host, scssdir, cssdir).Done?
    ensures var dirs := ResolveDirs(host, scssdir, cssdir).value;
            && host.isDir(dirs.0) && host.isDir(dirs.1)
            && (scssdir != "" ==> dirs.0 == scssdir)
            && (cssdir != "" ==> dirs.1 == cssdir)
  {
    if scssdir != "" && cssdir == "" {
      LocateFound(host.isDir, CssCandidates(host.join, scssdir));
    } else if scssdir == "" {
      LocateFound(host.isDir, ScssCandidates(host.join, cssdir));
    }
  }

  /** The entry names are the comma-separated list itself: none holds a
      comma, joining them with commas gives the argument back, and without
      an argument the one entry is `style.scss`. */
  lemma EntryNamesRoundTrip(scssfiles: string)
    ensures var names := EntryNames(scssfiles);
            && (forall i :: 0 <= i < |names| ==> ',' !in names[i])
            && (scssfiles == "" ==> names == [DefaultEntry])
            && (scssfiles != "" ==> JoinWith(names, ',') == scssfiles)
  {
    if scssfiles != "" {
      JoinSplit(scssfiles, ',');
    }
  }

  /** The style in effect: the default of the build kind when none is given
      (which is always accepted), otherwise the given one in lower case, so
      that the check does not depend on letter case. */
  lemma EffectiveStyleSpec(style: string, dev: bool)
    ensures style == "" ==> EffectiveStyle(style, dev) == (if dev then "expanded" else "compressed")
    ensures style == "" ==> EffectiveStyle(style, dev) in Styles
    ensures style != "" ==> EffectiveStyle(style, dev) == Lower(style)
    ensures EffectiveStyle(Lower(style), dev) == EffectiveStyle(style, dev)
  {
    LowerIdempotent(style);
  }

  /** A resolved configuration holds two existing directories, the CSS files
      pattern inside the CSS directory, one existing path per entry name in
      the named order, an accepted style and a source map whenever building
      for development. */
  lemma ResolvedConfig(host: Host, args: ScssArgs)
    requires Resolve(host, args).Done?
    ensures var c := Resolve(host, args).value;
            && host.isDir(c.scssdir) && host.isDir(c.cssdir)
            && (args.scssdir != "" ==> c.scssdir == args.scssdir)
            && (args.cssdir != "" ==> c.cssdir == args.cssdir)
            && c.cssfiles == host.join([c.cssdir, "*.css"])
            && c.scssfiles == EntryNames(args.scssfiles)
            && |c.scssfilepaths| == |c.scssfiles|
            && (forall i :: 0 <= i < |c.scssfiles| ==>
                  c.scssfilepaths[i] == host.join([c.scssdir, c.scssfiles[i]])
                  && host.isFile(c.scssfilepaths[i]))
            && (c.scssdir, c.cssdir) == ResolveDirs(host, args.scssdir, args.cssdir).value
            && c.style == EffectiveStyle(args.style, args.dev) && c.style in Styles
            && c.dev == args.dev && c.verbose == args.verbose
            && c.sourcemap == (args.sourcemap || args.dev)
  {
    ResolvedDirsExist(host, args.scssdir, args.cssdir);
    var dirs := ResolveDirs(host, args.scssdir, args.cssdir).value;
    CheckEntriesFiles(host, dirs.0, EntryNames(args.scssfiles));
  }

  /** A fatal error while resolving the directories ends the constructor
      with that error, before any entry file or the style is looked at. */
  lemma DirectoryErrorAborts(host: Host, args: ScssArgs)
    requires ResolveDirs(host, args.scssdir, args.cssdir).Aborted?
    ensures Resolve(host, args) == Aborted(ResolveDirs(host, args.scssdir, args.cssdir).reason)
  {
  }

  /** Once the directories are known, the first entry name whose path is not
      a file ends the run, naming that path. */
  lemma MissingEntryAborts(host: Host, args: ScssArgs, k: nat)
    requires ResolveDirs(host, args.scssdir, args.cssdir).Done?
    requires var scssdir := ResolveDirs(host, args.scssdir, args.cssdir).value.0;
             var names := EntryNames(args.scssfiles);
             && k < |names|
             && (forall i :: 0 <= i < k ==> host.isFile(host.join([scssdir, names[i]])))
             && !host.isFile(host.join([scssdir, names[k]]))
    ensures var scssdir := ResolveDirs(host, args.scssdir, args.cssdir).value.0;
            Resolve(host, args) == Aborted(InvalidScssFile(host.join([scssdir, EntryNames(args.scssfiles)[k]])))
  {
    var scssdir := ResolveDirs(host, args.scssdir, args.cssdir).value.0;
    CheckEntriesAborted(host, scssdir, EntryNames(args.scssfiles), k);
  }

  /** Once the directories and entry files pass, a style other than the four
      the compiler knows, ignoring case, ends the run naming the style as
      given; with no style given the run never ends here. */
  lemma StyleChecked(host: Host, args: ScssArgs)
    requires ResolveDirs(host, args.scssdir, args.cssdir).Done?
    requires CheckEntries(host, ResolveDirs(host, args.scssdir, args.cssdir).value.0, EntryNames(args.scssfiles)).Done?
    ensures Resolve(host, args) == Aborted(InvalidStyle(args.style))
            <==> args.style != "" && Lower(args.style) !in Styles
    ensures Resolve(host, args).Done? <==> EffectiveStyle(args.style, args.dev) in Styles
  {
    EffectiveStyleSpec(args.style, args.dev);
  }

  /** The constructor's checks in the order it makes them. */
  method Configure(host: Host, args: ScssArgs) returns (outcome: Outcome<ScssConfig>)
    ensures outcome == Resolve(host, args)
  {
    var dirs := FindDirectories(host, args.scssdir, args.cssdir);
    if dirs.Aborted? {
      return Aborted(dirs.reason);
    }
    var names := EntryNames(args.scssfiles);
    var files, paths, bad := CheckEntryFiles(host, dirs.value.0, names);
    if bad.Some? {
      return Aborted(InvalidScssFile(bad.value));
    }
    var effective := EffectiveStyle(args.style, args.dev);
    if effective !in Styles {
      return Aborted(InvalidStyle(args.style));
    }
    outcome := Done(ScssConfig(args.dev, args.verbose, dirs.value.0, dirs.value.1, host.join([dirs.value.1, "*.css"]),
                               files, paths, effective, args.sourcemap || args.dev));
  }

  class ScssTask {
    var dev: bool
    var verbose: bool
    var scssdir: string
    var cssdir: string
    var scssfiles: seq<string>
    var scssfilepaths: seq<string>
    var cssfiles: string
    var style: string
    var sourcemap: bool
    /** Where the constructor called `log.ter`, if it did: the process ends
        there and the object is never used. */
    var aborted: Option<Abort>

    /** The configuration the fields hold. */
    function Config(): ScssConfig
      reads this
    {
      ScssConfig(dev, verbose, scssdir, cssdir, cssfiles, scssfiles, scssfilepaths, style, sourcemap)
    }

    /** `watch()`: every SCSS file below the SCSS directory, normalized by the
        path library and then given forward slashes for the watcher. */
    function WatchPattern(normalize: string -> string): (pattern: string)
      reads this
      ensures var p := normalize(scssdir + "/**/*.scss");
              && |pattern| == |p|
              && forall i :: 0 <= i < |p| ==> pattern[i] == (if p[i] == '\\' then '/' else p[i])
      ensures '\\' !in pattern
    {
      ForwardSlashesSpec(normalize(scssdir + "/**/*.scss"));
      ForwardSlashes(normalize(scssdir + "/**/*.scss"))
    }

    /** `new Scss(dev, style, sourcemap, scssdir, cssdir, scssfiles, verbose)`. */
    constructor (host: Host, dev: bool, style: string, sourcemap: bool,
                 scssdir: string, cssdir: string, scssfiles: string, verbose: bool)
      ensures var outcome := Resolve(host, ScssArgs(dev, style, sourcemap, scssdir, cssdir, scssfiles, verbose));
              if aborted.Some? then outcome == Aborted(aborted.value) else outcome == Done(Config())
    {
      var outcome := Configure(host, ScssArgs(dev, style, sourcemap, scssdir, cssdir, scssfiles, verbose));
      this.dev, this.verbose := dev, verbose;
      match outcome {
        case Aborted(reason) =>
          this.scssdir, this.cssdir, this.cssfiles := "", "", "";
          this.scssfiles, this.scssfilepaths := [], [];
          this.style, this.sourcemap := "", false;
          aborted := Some(reason);
        case Done(c) =>
          this.scssdir, this.cssdir, this.cssfiles := c.scssdir, c.cssdir, c.cssfiles;
          this.scssfiles, this.scssfilepaths := c.scssfiles, c.scssfilepaths;
          this.style, this.sourcemap := c.style, c.sourcemap;
          aborted := None;
      }
    }
  }
}
