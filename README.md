# bootstrap-sass-themer build script, modelled in Dafny

The project is a gulp build script, `gulpfile.js`. It themes Bootstrap by compiling SCSS to CSS. It also minifies images and scripts and watches files for live reload. This model covers the configuration logic that runs before the script hands work to its gulp pipelines:

- **`Scss` constructor** (`scss.dfy`, module `Scss`). Resolves the SCSS and CSS directories. A missing directory is inferred from its partner by trying `../css` and then `css` (or `../scss` and then `scss`). Each entry file must exist. The output style defaults according to the development flag. The source-map flag is settled here too. Each fatal `log.ter` becomes an `Abort` value. The constructor is a class whose fields hold the result. The checks are a heap-free method proved equal to the function `Resolve`. The directory lemmas (`BothDirsKept`, `CssDirInferred`, `ScssDirInferred`, `ResolvedDirsExist`) are stated about the directory stage `ResolveDirs`; the candidate lemmas (`LocateFirst`, `LocateNone`, `LocateFound`) about `Locate`; the entry lemmas (`EntryNamesRoundTrip`, `CheckEntriesDone`, `CheckEntriesAborted`, `CheckEntriesFiles`) about `EntryNames` and `CheckEntries`; and `EffectiveStyleSpec` about `EffectiveStyle`. `ResolvedConfig`, `DirectoryErrorAborts`, `MissingEntryAborts` and `StyleChecked` carry these stages over to `Resolve`.
- **`ItemArray`** (`item_array.dfy`, module `ItemArrays`). The ordered list the build steps fill. `add` splits on the delimiter, flattens arrays, and trims and drops empty entries. It is modelled as written: `remove` compares each entry with the function `items.trim` rather than with a string, so it never deletes anything. The class keeps `items` as a field. `Add` and `Remove` are recursive methods. `Add` is proved to append `Leaves` of its input; `Remove` is proved to leave `items` unchanged.
- **`_fitLength`** (`fit_length.dfy`, module `FitLengths`). Pads from a repeated pad string or cuts with `substr`. The script uses it for the two-digit time fields and for the 8-character prefix of each log line (gulpfile.js:94 and 121). Only the time-field use is modelled; the prefix belongs to the logging, which is left out.
- **`beautifyText`** (`beautify.dfy`, module `Beautify`). Wraps the text in ANSI attribute codes. Start codes go in option order and end codes in reverse order. A name the attribute table does not hold adds nothing. The table is a plain JavaScript object, so the inherited keys `constructor` and `__proto__` are found as well: they contribute the strings of `Object` and of `Object.prototype`, and `undefined` after the text, since they have no `end_` entry. `reset` has no `end_` entry either, so `undefined` is appended.
- **`_imagemin`, `_livereload`, `_minifyjs`** (`tasks.dfy`, module `Tasks`). Each builds the list of directories and file patterns it hands to gulp:
  - one `join(dir, '**', '*')` glob per directory;
  - back-slashes rewritten to forward slashes for the watcher;
  - the minified bundle name and the directory defaults.
- Shared pieces: JavaScript's `trim`, `split` on one character, `toLowerCase`, `substr` and `repeat` (`strings.dfy`, module `JsStrings`), and the host (`host.dfy`, module `Hosts`).

The filesystem probe `_isValidPath`, `path.join` and `path.normalize` are function values in a `Host` datatype, supplied by the caller. Properties that rely on Node's `path.join` never returning `""` take that as the hypothesis `JoinNeverEmpty`. The working directory of `_minifyjs` is a parameter.

## Model

| member | source | states |
|---|---|---|
| Scss.Locate | gulpfile.js:196-202 | the first candidate that is a directory, or `""`; `LocateFirst`, `LocateNone` and `LocateFound` state its cases, and `LocateDirectory` computes it by the source's loop |
| Scss.LocateDirectory | gulpfile.js:192-205 | the candidate loop with `break` yields the first candidate that is a directory, or `""` when none is |
| Scss.LocateFirst | gulpfile.js:197-202 | when candidate k is a directory and none before it is, candidate k is chosen |
| Scss.LocateNone | gulpfile.js:203-205 | when no candidate is a directory, nothing is found, which the constructor turns into a fatal error |
| Scss.LocateFound | gulpfile.js:197-202 | anything found is one of the candidates and is a directory |
| Scss.ResolveDirs | gulpfile.js:178-232 | the directory stage of the constructor; its error order and its results are stated by `FindDirectories`, `BothDirsKept`, `CssDirInferred`, `ScssDirInferred` and `ResolvedDirsExist` |
| Scss.FindDirectories | gulpfile.js:178-232 | the directory checks, in the constructor's order, agree with the resolution function: first insufficient arguments, then an invalid SCSS directory, then CSS not found, then an invalid CSS directory, then SCSS not found |
| Scss.NoDirectoryAborts | gulpfile.js:178-181 | with neither directory given, the constructor ends with "insufficient arguments" |
| Scss.InvalidScssDirAborts | gulpfile.js:183-185 | a given SCSS directory that is not a directory ends the run, naming it |
| Scss.InvalidCssDirAborts | gulpfile.js:208-210 | a given CSS directory that is not a directory ends the run, naming it, once the SCSS directory has passed |
| Scss.BothDirsKept | gulpfile.js:183-214 | two valid given directories are kept as they are and no search is made |
| Scss.CssDirInferred | gulpfile.js:190-206 | with only a valid SCSS directory, the CSS directory is the sibling `../css` if that is a directory, else the child `css`, else the run ends |
| Scss.ScssDirInferred | gulpfile.js:215-231 | with only a valid CSS directory, the SCSS directory is `../scss`, else `scss`, else the run ends |
| Scss.ResolvedDirsExist | gulpfile.js:178-232 | resolved directories are directories, and a directory that was given is kept unchanged |
| Scss.EntryNames | gulpfile.js:236 | there is always at least one entry name; `EntryNamesRoundTrip` states that the names give back the argument |
| Scss.EntryNamesRoundTrip | gulpfile.js:236 | no entry names means `style.scss`; otherwise names contain no comma and joining them with commas gives back the argument |
| Scss.CheckEntries | gulpfile.js:237-245 | the entry stage; `CheckEntryFiles`, `CheckEntriesDone`, `CheckEntriesAborted` and `CheckEntriesFiles` state its results |
| Scss.CheckEntryFiles | gulpfile.js:237-245 | the entry loop keeps every name and its joined path when all are files, and otherwise reports the first path that is not a file |
| Scss.CheckEntriesDone | gulpfile.js:237-245 | when every entry path is a file, the paths are the SCSS directory joined with each name, in order |
| Scss.CheckEntriesAborted | gulpfile.js:242-244 | the first entry path that is not a file ends the run, naming that path |
| Scss.CheckEntriesFiles | gulpfile.js:237-245 | accepted paths are one per name, each the joined path and each a file |
| Scss.EffectiveStyle | gulpfile.js:247-248 | the style the constructor checks; `EffectiveStyleSpec` states its cases |
| Scss.EffectiveStyleSpec | gulpfile.js:247-248 | an empty style means `expanded` in development and `compressed` otherwise; a given style is lower-cased; the case of a given style does not matter |
| Scss.Resolve | gulpfile.js:164-252 | the whole constructor on values; `Configure` computes it by the constructor's steps, and `StyleChecked`, `MissingEntryAborts`, `DirectoryErrorAborts` and `ResolvedConfig` state its outcomes |
| Scss.StyleChecked | gulpfile.js:249-251 | once the directories and entries pass, the constructor succeeds exactly when the effective style is one of the four styles, and otherwise ends naming the style as given |
| Scss.MissingEntryAborts | gulpfile.js:236-245 | a missing entry file ends the whole constructor, naming the first missing path |
| Scss.ResolvedConfig | gulpfile.js:164-263 | a successful configuration has exactly the directories the directory stage resolved, which exist (given ones kept), the CSS glob `join(cssdir, '*.css')`, one existing file path per entry name, the effective style, which is one of the four styles, and `sourcemap or dev` as the source-map flag |
| Scss.DirectoryErrorAborts | gulpfile.js:178-232 | a fatal error of the directory stage ends the whole constructor with the same message |
| Scss.Configure | gulpfile.js:178-252 | the method's checks, in the constructor's order, agree with the resolution function |
| Scss.ScssTask.constructor | gulpfile.js:164-263 | the new object's fields hold the resolved configuration, or the object records the fatal error the constructor stopped at |
| Scss.ScssTask.WatchPattern | gulpfile.js:296-303 | the watched pattern is the normalized `scssdir/**/*.scss`, character by character, with every back-slash turned into `/` and every other character kept; it holds no back-slash |
| ItemArrays.ItemArray.constructor | gulpfile.js:317-322 | a new list holds exactly what one `add` of the input pushes onto an empty list |
| ItemArrays.ItemArray.Add | gulpfile.js:323-337 | `add` appends the flattened, split, trimmed, non-empty leaves of its input, in order, to the old contents |
| ItemArrays.ItemArray.Remove | gulpfile.js:338-355 | as written, `remove` leaves the contents unchanged |
| ItemArrays.Leaves | gulpfile.js:323-337 | what one `add` pushes; `LeavesClean`, `LeavesOfPieces`, `LeavesOfPlainString` and `CleanValuePushesItself` state its properties |
| ItemArrays.LeavesClean | gulpfile.js:323-337 | every pushed entry is non-empty, has no surrounding white space and contains no delimiter |
| ItemArrays.LeavesOfPieces | gulpfile.js:324-331 | splitting a delimited string and re-adding its pieces pushes the trimmed, non-empty pieces in order |
| ItemArrays.LeavesOfPlainString | gulpfile.js:332-335 | a string without the delimiter pushes its trimmed value unless that is empty |
| ItemArrays.EmptyInputsPushNothing | gulpfile.js:317-337 | the default empty array and the empty string push nothing |
| ItemArrays.CleanValuePushesItself | gulpfile.js:332-335 | a trimmed, non-empty value without the delimiter pushes exactly itself |
| ItemArrays.Splice | gulpfile.js:350 | `splice(idx, 1)` removes exactly the entry at `idx` |
| ItemArrays.ReAddKeepsDuplicate | gulpfile.js:332-335 | adding a value a second time leaves two copies of it |
| ItemArrays.AsWrittenKeepsRepeats | gulpfile.js:323-355 | adding a comma-joined list of clean values pushes exactly those values, repeats included |
| ItemArrays.StrictEqualsStrings | gulpfile.js:349 | `===` equates two strings exactly when their characters agree, and never equates the function `items.trim` with a string |
| ItemArrays.RemoveAll | gulpfile.js:347-353 | the intended `remove` deletes every equal entry and keeps every other one |
| ItemArrays.RemoveAllCounts | gulpfile.js:347-353 | the intended `remove` leaves no copy of the value and keeps every other value as often as it was there |
| ItemArrays.RemoveAllAppend | gulpfile.js:347-353 | the intended `remove` keeps the order of the entries it does not delete: removing from a concatenation removes from each part |
| ItemArrays.DedupAppend | gulpfile.js:332-335 | the intended `add` of one value puts it last, after exactly the old list with that value removed |
| ItemArrays.DedupAppendAll | gulpfile.js:323-355 | the intended `add` of several values, one after another; `DedupAppendAllDistinct`, `IntendedCollapsesRepeats` and `RepeatMovesToEnd` state its results |
| ItemArrays.DedupAppendAllDistinct | gulpfile.js:323-355 | with the intended comparison the list never holds a value twice and holds exactly the values fed |
| ItemArrays.IntendedCollapsesRepeats | gulpfile.js:323-355 | with the intended comparison "a,b,a,c" gives [b, a, c], where the code as written keeps [a, b, a, c] |
| ItemArrays.RepeatMovesToEnd | gulpfile.js:332-353 | with the intended comparison, feeding a, b, a, c gives [b, a, c] |
| FitLengths.CeilDiv | gulpfile.js:445 | `Math.ceil(a / b)` is the least multiple count covering `a` |
| FitLengths.FitLength | gulpfile.js:440-452 | `_fitLength`; `FitLengthLength`, `FitLengthExact`, `FitLengthCut`, `FitLengthPadRight` and `FitLengthPadLeft` state its results |
| FitLengths.FitLengthLength | gulpfile.js:440-452 | with a non-empty pad, the result has exactly the target length |
| FitLengths.FitLengthExact | gulpfile.js:451 | a text already of the target length is returned unchanged |
| FitLengths.FitLengthCut | gulpfile.js:448-450 | a longer text is cut to its first `target` characters, or to nothing for a target of zero or less |
| FitLengths.FitLengthPadded | gulpfile.js:444-447 | a shorter text gets the slice of the repeated pad the code takes, on the chosen side |
| FitLengths.FitLengthPadRight | gulpfile.js:444-447 | right padding keeps the text as prefix and continues the pad cyclically from its first character |
| FitLengths.FitLengthPadLeft | gulpfile.js:444-447 | left padding keeps the text as suffix and the pad's cycle ends at the last character just before the text |
| JsStrings.Decimal | gulpfile.js:374-376 | the decimal digits of a time field, at least one; `TimeFieldDigits` states the two-digit result for values below 100 |
| FitLengths.TimeFieldDigits | gulpfile.js:372-377 | each time field below 100 becomes exactly its two decimal digits, with a leading zero |
| Beautify.TextAttribute | gulpfile.js:677-706 | the attribute table, inherited keys included; `PairedOption`, `ResetUnpaired`, `ConstructorKeyFound` and `ProtoKeyFound` state what its entries produce |
| Beautify.Wrapped | gulpfile.js:712-719 | the text wrapped in the options' codes; `BeautifyText` computes it by the source's loop, and `FirstOptionOutermost`, `StartCodesCons` and `EndCodesCons` state its nesting |
| Beautify.BeautifyText | gulpfile.js:676-720 | the loop gives the start codes of the options in order, then the text, then their end codes in reverse order |
| Beautify.SingleOption | gulpfile.js:708-719 | a single option wraps the text exactly as the one-element array holding it does, in that option's start and end codes |
| Beautify.FirstOptionOutermost | gulpfile.js:712-719 | the first option's codes enclose everything the other options produce |
| Beautify.StartCodesCons | gulpfile.js:712-717 | start codes accumulate in option order |
| Beautify.EndCodesCons | gulpfile.js:712-718 | end codes accumulate in reverse option order |
| Beautify.UnknownOptionIgnored | gulpfile.js:715 | an option the table does not know adds nothing |
| Beautify.NoOptionsKeepText | gulpfile.js:719 | no options give the text unchanged |
| Beautify.PairedOption | gulpfile.js:714-718 | a known option with an `end_` entry wraps the text in its start and end codes |
| Beautify.UnpairedOption | gulpfile.js:714-718 | a known option without an `end_` entry appends the string `undefined` |
| Beautify.OptionCaseIgnored | gulpfile.js:713 | options are looked up in lower case, so their case does not matter |
| Beautify.ResetUnpaired | gulpfile.js:679-719 | `reset` puts ESC[0m in front and `undefined` after the text |
| Beautify.ConstructorKeyFound | gulpfile.js:714-716 | the inherited key `constructor` is found: it puts the string of `Object` in front and `undefined` after the text |
| Beautify.ProtoKeyFound | gulpfile.js:714-716 | the inherited key `__proto__` is found: it puts `[object Object]` in front and `undefined` after the text |
| Tasks.Glob | gulpfile.js:393 | `join(dir, '**', '*')`; `GlobsOnePerDir` places one per directory |
| Tasks.Globs | gulpfile.js:389-394 | what the directory loop adds; `AddGlobs` computes it, and `GlobsOnePerDir` states one glob per directory, in order, for clean globs |
| Tasks.GlobsOnePerDir | gulpfile.js:389-394 | with clean globs, the loop adds exactly one glob per directory, in order |
| Tasks.AddGlobs | gulpfile.js:389-394 | the loop stops at the first entry that is not a directory, and otherwise appends each directory's glob, in order |
| Tasks.ImageminPlan | gulpfile.js:379-394 | what `_imagemin` hands to gulp; `ImageminNothing`, `ImageminPairs` and `ImageminInvalid` state its cases |
| Tasks.Imagemin | gulpfile.js:379-394 | the `_imagemin` loop over two `ItemArray`s agrees with its plan: nothing to do, the first invalid directory, or the globs |
| Tasks.ImageminNothing | gulpfile.js:383-387 | an empty or blank argument gives nothing to do |
| Tasks.ImageminPairs | gulpfile.js:389-394 | with valid directories whose globs are clean, there is one pattern per directory, in order, each that directory's `**/*` glob |
| Tasks.ImageminInvalid | gulpfile.js:390-392 | the first entry that is not a directory ends the run, naming it |
| Tasks.RewriteSlashes | gulpfile.js:479-481 | the in-place loop replaces every entry with its forward-slash form |
| Tasks.LivereloadPlan | gulpfile.js:454-481 | what `_livereload` watches; `LivereloadWatches`, `LivereloadStandalone`, `LivereloadNothing` and `LivereloadInvalid` state its cases |
| Tasks.Livereload | gulpfile.js:454-481 | `_livereload` agrees with its plan: the first invalid directory, nothing to watch, or the globs and stylesheet files with forward slashes |
| Tasks.StylesheetEntries | gulpfile.js:464-466 | the stylesheet task's CSS files, added wrapped in an array, or nothing without that task; `StylesheetEntryClean` states the clean case |
| Tasks.StylesheetEntryClean | gulpfile.js:466-468 | a clean stylesheet pattern, added wrapped in an array, is pushed as it is |
| Tasks.LivereloadWatches | gulpfile.js:458-481 | valid directories and clean patterns are watched as each directory's glob, then the stylesheet files, all without back-slashes |
| Tasks.LivereloadStandalone | gulpfile.js:458-481 | without the stylesheet task, valid directories with clean globs are watched as one forward-slashed glob per directory, in order |
| Tasks.LivereloadNothing | gulpfile.js:470-474 | no directories and no stylesheet task means nothing to watch |
| Tasks.LivereloadInvalid | gulpfile.js:459-461 | the first entry that is not a directory ends the run, naming it |
| Tasks.MinifiedName | gulpfile.js:501-502 | the bundle name as written; `MinifiedNameAlwaysSuffixed` and `MinifiedNameAsWritten` state what it does |
| Tasks.MinifiedNameAlwaysSuffixed | gulpfile.js:501-502 | as written, `.min.js` is appended to every name, even one ending in `.js`, and the logged label is never "Not provided" |
| Tasks.BundleLabel | gulpfile.js:506 | the logged name, or "Not provided" for an empty one; `MinifiedNameAlwaysSuffixed` and `IntendedMinifiedNameSpec` state when that label appears |
| Tasks.MinifiedNameAsWritten | gulpfile.js:501-505 | as written, `app.js` becomes `app.js.min.js`, and with no name the label shows `.min.js` |
| Tasks.IntendedMinifiedName | gulpfile.js:501-502 | the corrected bundle name; `IntendedMinifiedNameSpec` states its cases |
| Tasks.IntendedMinifiedNameSpec | gulpfile.js:501-505 | the intended name keeps a `.js` name, appends `.min.js` to any other non-empty name, and keeps an empty one, which the log reports as not provided; applying it twice changes nothing |
| Tasks.MinifyjsPlan | gulpfile.js:497-512 | what `_minifyjs` hands to gulp; `MinifyjsPlanSpec` states its defaults and outputs |
| Tasks.MinifyjsPlanSpec | gulpfile.js:497-533 | sources and destination default to the working directory, a bundle is made only under a given name, and the maps in the destination are deleted |
| JsStrings.Trim | gulpfile.js:332 | `String.prototype.trim`; `TrimShape`, `TrimIdempotent`, `TrimEmpty` and `TrimKeepsOut` state its properties |
| JsStrings.TrimShape | gulpfile.js:332 | `trim` removes exactly the leading and trailing ECMAScript white space and keeps the middle |
| JsStrings.TrimIdempotent | gulpfile.js:332 | trimming twice is trimming once |
| JsStrings.TrimEmpty | gulpfile.js:332 | a string trims to empty exactly when it is all white space |
| JsStrings.TrimKeepsOut | gulpfile.js:332 | trimming adds no character, so a delimiter-free value stays delimiter-free |
| JsStrings.Split | gulpfile.js:326 | `split` on one character gives at least one piece, none holding the separator |
| JsStrings.JoinSplit | gulpfile.js:326 | joining the pieces of a split with the separator gives back the string |
| JsStrings.SplitJoin | gulpfile.js:236 | splitting a join of separator-free pieces gives back the pieces |
| JsStrings.SplitFree | gulpfile.js:236 | a string without the separator splits into itself |
| JsStrings.Lower | gulpfile.js:248 | the model's `Lower`, which maps A–Z and the Kelvin sign, keeps the length |
| JsStrings.LowerIdempotent | gulpfile.js:248 | lower-casing twice is lower-casing once |
| JsStrings.EndsWithAppended | gulpfile.js:501 | `endsWith` holds of whatever was appended last |
| JsStrings.Substr | gulpfile.js:446-449 | `substr(start, length)` has the clamped length and, for a non-negative start, is that slice of the string |
| JsStrings.Repeat | gulpfile.js:445 | `String.prototype.repeat`; `RepeatAt` states its length and its characters |
| JsStrings.RepeatAt | gulpfile.js:445 | `repeat(n)` has n times the length and repeats the string cyclically |
| JsStrings.ForwardSlashes | gulpfile.js:303 | `replace(/\\/g, '/')`; `ForwardSlashesSpec` and `ForwardSlashesIdempotent` state its properties |
| JsStrings.ForwardSlashesSpec | gulpfile.js:303 | `replace(/\\/g, '/')` keeps the length, leaves no back-slash, and changes only back-slashes |
| JsStrings.ForwardSlashesIdempotent | gulpfile.js:480 | rewriting slashes twice is rewriting them once |

## Left out

- The gulp pipelines themselves are not modelled: `preprocess`, the `clean` deletion, the watchers and their events, the live-reload server, the image codecs, `uglify`, `concat`, `sourcemaps`, `autoprefixer` and the `foo`→`bar` replacement. They are calls into plugins whose code is not part of this model. The model stops at the directories and patterns each task hands to them.
- The filesystem probe in `_isValidPath` (`fs.statSync`) is the host's `isDir` and `isFile`. Errors thrown by the probe count as "not valid", as the source's `catch` does.
- `path.join` and `path.normalize` are uninterpreted host functions. Node's behaviour is assumed only as `JoinNeverEmpty`, where a lemma needs it.
- Command-line parsing with `yargs` is not modelled. The arguments are parameters.
- `process.exit` and the printing done by `log.ter`, `log.err`, `log.inf` and the other `Log` methods, with their colours, are not modelled. A fatal error becomes an `Abort` value.
- `_getTime` reads the wall clock, so only its use of `_fitLength` on each field is modelled (`TimeFieldDigits`).
- `_showWelcomeMessage` and `_usage` only print.
- `_scssSingleton` is not modelled: it is lazy global state. `_livereload` takes the stylesheet task's CSS pattern as an optional parameter instead.
- `CustomException` and `_validatePaths` are never called.
- The functions exported to gulp as tasks are not modelled: they only sequence the other functions.
- `ItemArray`'s `verbose` parameter is unused by the class and is not modelled.
- `ItemArrays.ItemArray`: `filedelim` is a single character, which is the only kind the script passes.
- `JsStrings.Lower`: `toLowerCase` is modelled for A–Z and the Kelvin sign, the only characters whose lower case is ASCII. Every other character is kept unchanged. This is exact for every comparison the script makes against its ASCII names.
- `FitLengths.FitLength`: an empty pad string with a longer target makes `''.repeat(Infinity)` throw a `RangeError` in the source. The model requires a non-empty pad in that case instead of modelling the exception.
- `FitLengths.FitLength`: lengths count Dafny characters, where JavaScript counts UTF-16 code units. The two agree on the ASCII strings the script pads.
- `Tasks.ImageminPairs`, `Tasks.LivereloadWatches` and `Tasks.LivereloadStandalone`: "one pattern per directory" holds only when every glob is clean, meaning non-empty, with no comma and no surrounding white space. A glob that contains a comma is split again by `add`, exactly as the source does.
- `Scss.ScssTask.WatchPattern`: only the characters of the pattern are modelled, not what the watcher matches.

## Findings

| source | as written | input that shows it | evidently intended | confidence | as-written member | corrected member |
|---|---|---|---|---|---|---|
| gulpfile.js:349 | `items.trim === this.items[idx]` compares the function `trim` with a string, so `remove` never removes and `add` keeps duplicates | adding "a,b,a,c" gives [a, b, a, c] | compare `items === this.items[idx]`, so that a re-added value moves to the end: [b, a, c] | high, not executed | ItemArrays.AsWrittenKeepsRepeats | ItemArrays.DedupAppendAllDistinct |
| gulpfile.js:501-502 | `minifyjsf === '' && minifyjsf.endsWith('.js')` can never hold, so `.min.js` is always appended | `app.js` becomes `app.js.min.js`; with no name the log shows `.min.js` instead of "Not provided" | `minifyjsf === '' \|\| minifyjsf.endsWith('.js')` | high, not executed | Tasks.MinifiedNameAsWritten | Tasks.IntendedMinifiedNameSpec |

- `add` calls `remove` before `push` (gulpfile.js:332-334), so the code means to keep each value once and move a re-added value to the end. As written, `remove` deletes nothing. The model follows the code: `ItemArrays.ItemArray.Remove` changes nothing. The intended behaviour is stated and proved on its own (`ItemArrays.RemoveAll`, `ItemArrays.DedupAppend`, `ItemArrays.DedupAppendAll`, `ItemArrays.IntendedCollapsesRepeats`). `RemoveAll` deletes every equal entry. Repairing only the comparison on line 349 would still splice inside `for (var idx in this.items)`, which skips the entry that shifts into a removed slot, so on [a, a] it would leave [a]. The two agree on lists without repeats, which are the only lists the intended `add` builds (`DedupAppendAllDistinct`).
- The bundle name finding follows the plan as written in every task that uses it (`Tasks.MinifyjsPlan`). `Tasks.IntendedMinifiedName` is the corrected definition.
