/**
 * The prepare step: write the release version into package.json with
 * `yarn version`, and, when a tarball directory is configured, build the
 * package with `yarn pack` and move the tarball into that directory.
 */
module Prepare {
  import opened Wrappers
  import opened JsString
  import opened PosixPath
  import opened Effects

  const UserConfigVar := "NPM_CONFIG_USERCONFIG"
  const TarballMarker := "Wrote tarball to"
  const WriteVersionMessage := "Write version %s to package.json in %s"
  const CreatePackageMessage := "Creating yarn package version %s"

  /** The plugin options the step reads; an option left out is `None`. */
  datatype Options = Options(tarballDir: Option<string>, pkgRoot: Option<string>)

  /** The parts of the release context the step reads: working directory, environment and next release version. */
  datatype Context = Context(cwd: string, env: Env, version: string)

  /** JavaScript truthiness of an optional string. */
  predicate Truthy(o: Option<string>)
    ensures o.None? ==> !Truthy(o)
    ensures o.Some? ==> (Truthy(o) <==> |o.value| > 0)
  {
    o.Some? && o.value != ""
  }

  /** The directory holding package.json: `pkgRoot` resolved against `cwd`, or `cwd` itself, untouched. */
  function BasePath(processCwd: string, cwd: string, pkgRoot: Option<string>): (r: string)
    ensures !Truthy(pkgRoot) ==> r == cwd
    ensures Truthy(pkgRoot) ==> IsAbsolute(r) && exists cs :: AllPlain(cs) && r == Rooted(cs)
  {
    if Truthy(pkgRoot) then
      ResolveNormalized(processCwd, [cwd, pkgRoot.value]);
      Resolve(processCwd, [cwd, pkgRoot.value])
    else cwd
  }

  /** `{...env, NPM_CONFIG_USERCONFIG: npmrc}`. */
  function WithUserConfig(env: Env, npmrc: string): (r: Env)
    ensures UserConfigVar in r && r[UserConfigVar] == npmrc
    ensures forall k :: k != UserConfigVar ==> (k in r <==> k in env)
    ensures forall k :: k in env && k != UserConfigVar ==> r[k] == env[k]
  {
    env[UserConfigVar := npmrc]
  }

  /** No line of the `yarn pack` output mentions the written tarball. */
  predicate NoMarkerLine(stdout: string) {
    var lines := Split(stdout, '\n');
    forall i :: 0 <= i < |lines| ==> !Contains(lines[i], TarballMarker)
  }

  /** The first line of the `yarn pack` output that mentions the written tarball. */
  function TarballLine(stdout: string): (r: Option<string>)
    ensures r.None? <==> NoMarkerLine(stdout)
    ensures r.Some? ==> r.value in Split(stdout, '\n') && '\n' !in r.value && Contains(r.value, TarballMarker)
  {
    FindContaining(Split(stdout, '\n'), TarballMarker)
  }

  /** The text between the first and the last double quote of `line`, with `slice`'s treatment of -1. */
  function TarballSource(line: string): (r: string)
    // the text strictly between the first and the last quote, or nothing when they coincide
    ensures IndexOf(line, '"') < LastIndexOf(line, '"') ==>
      r == line[IndexOf(line, '"') + 1..LastIndexOf(line, '"')]
    ensures '"' in line && IndexOf(line, '"') == LastIndexOf(line, '"') ==> r == ""
    // always strictly shorter than the line, and taken from it
    ensures line != "" ==> |r| < |line|
    ensures forall c :: c in r ==> c in line
  {
    Slice(line, IndexOf(line, '"') + 1, LastIndexOf(line, '"'))
  }

  /** Where `yarn pack` says it wrote the tarball; `None` when no line mentions it. */
  function PackedTarball(stdout: string): (r: Option<string>)
    ensures r.None? <==> NoMarkerLine(stdout)
    ensures r.Some? ==> '\n' !in r.value
  {
    match TarballLine(stdout)
    case None => None
    case Some(line) => Some(TarballSource(line))
  }

  /** `resolve(cwd, tarballDir.trim(), basename(source))`. */
  function TarballDestination(processCwd: string, cwd: string, tarballDir: string, source: string): (r: string)
    ensures exists cs :: AllPlain(cs) && r == Rooted(cs)
  {
    ResolveNormalized(processCwd, [cwd, Trim(tarballDir), Basename(source)]);
    Resolve(processCwd, [cwd, Trim(tarballDir), Basename(source)])
  }

  /** The step packs only once the version is written and a tarball directory is set. */
  predicate Packs(options: Options, versionRun: Outcome) {
    versionRun.Exited? && Truthy(options.tarballDir)
  }

  /** What follows `yarn pack`: reading its output and the move, if any (`cwd` is the context's). */
  function AfterPack(processCwd: string, cwd: string, tarballDir: string, packRun: Outcome, moveStatus: Status): (r: Run)
    ensures |r.effects| <= 1
    ensures packRun.Threw? ==> r == Run([], Rejected(packRun.error))
    ensures packRun.Exited? && PackedTarball(packRun.stdout).None? ==> r == Run([], Rejected(MissingTarballLine))
    ensures packRun.Exited? && PackedTarball(packRun.stdout).Some? ==>
      var source := PackedTarball(packRun.stdout).value;
      var destination := TarballDestination(processCwd, cwd, tarballDir, source);
      r == if source == destination then Run([], Fulfilled)
           else Run([Move(source, destination)], if moveStatus.Done? then Fulfilled else Rejected(moveStatus.error))
  {
    match packRun
    case Threw(e) => Run([], Rejected(e))
    case Exited(stdout) =>
      match TarballLine(stdout)
      case None => Run([], Rejected(MissingTarballLine))
      case Some(line) =>
        var source := TarballSource(line);
        var destination := TarballDestination(processCwd, cwd, tarballDir, source);
        if source == destination then Run([], Fulfilled)
        else Run([Move(source, destination)], match moveStatus case Done => Fulfilled case Failed(e) => Rejected(e))
  }

  /**
   * The prepare step.  `processCwd` is `process.cwd()`; `versionRun`,
   * `packRun` and `moveStatus` are what `yarn version`, `yarn pack` and the
   * move report when they are reached.
   */
  function Prepare(processCwd: string, npmrc: string, options: Options, context: Context,
                   versionRun: Outcome, packRun: Outcome, moveStatus: Status): (r: Run)
    // the version is logged, then written by `yarn version` in the package directory
    ensures var base := BasePath(processCwd, context.cwd, options.pkgRoot);
      && 2 <= |r.effects| <= 5
      && r.effects[0] == Log(WriteVersionMessage, [context.version, base])
      && r.effects[1] == Exec(Command("yarn", ["version", "--new-version", context.version, "--no-git-tag-version"],
                                      base, WithUserConfig(context.env, npmrc), true))
    ensures versionRun.Threw? ==> |r.effects| == 2 && r.completion == Rejected(versionRun.error)
    ensures versionRun.Exited? && !Truthy(options.tarballDir) ==> |r.effects| == 2 && r.completion == Fulfilled
    // packing happens exactly after a successful version write with a tarball directory, from `cwd`
    ensures |r.effects| > 2 <==> Packs(options, versionRun)
    ensures Packs(options, versionRun) ==>
      && |r.effects| >= 4
      && r.effects[2] == Log(CreatePackageMessage, [context.version])
      && r.effects[3] == Exec(Command("yarn", ["pack", "--cwd", BasePath(processCwd, context.cwd, options.pkgRoot)],
                                      context.cwd, WithUserConfig(context.env, npmrc), true))
    // what follows the pack command is `AfterPack`'s: reading its output and the move, if any
    ensures Packs(options, versionRun) ==>
      var tail := AfterPack(processCwd, context.cwd, options.tarballDir.value, packRun, moveStatus);
      r.effects[4..] == tail.effects && r.completion == tail.completion
  {
    var base := BasePath(processCwd, context.cwd, options.pkgRoot);
    var env := WithUserConfig(context.env, npmrc);
    var versioned := [
      Log(WriteVersionMessage, [context.version, base]),
      Exec(Command("yarn", ["version", "--new-version", context.version, "--no-git-tag-version"], base, env, true))
    ];
    match versionRun
    case Threw(e) => Run(versioned, Rejected(e))
    case Exited(_) =>
      if !Truthy(options.tarballDir) then Run(versioned, Fulfilled)
      else
        var packed := versioned + [
          Log(CreatePackageMessage, [context.version]),
          Exec(Command("yarn", ["pack", "--cwd", base], context.cwd, env, true))
        ];
        var tail := AfterPack(processCwd, context.cwd, options.tarballDir.value, packRun, moveStatus);
        assert (packed + tail.effects)[4..] == tail.effects;
        Run(packed + tail.effects, tail.completion)
  }

  /** A line whose first quote is at `i` and whose last quote is at `j` yields the text strictly between them. */
  lemma TarballSourceBetween(line: string, i: nat, j: nat)
    requires i < j < |line| && line[i] == '"' && line[j] == '"'
    requires '"' !in line[..i] && '"' !in line[j + 1..]
    ensures TarballSource(line) == line[i + 1..j]
  {
    IndexOfUnique(line, '"', i);
    LastIndexOfUnique(line, '"', j);
  }

  /** A line of the form pre"P"post, with no quote in pre or post, yields P, whatever P holds. */
  lemma TarballSourceQuoted(pre: string, path: string, post: string)
    requires '"' !in pre && '"' !in post
    ensures TarballSource(pre + ['"'] + path + ['"'] + post) == path
  {
    var line := pre + ['"'] + path + ['"'] + post;
    var i, j := |pre|, |pre| + 1 + |path|;
    assert line[..i] == pre && line[j + 1..] == post && line[i + 1..j] == path;
    TarballSourceBetween(line, i, j);
  }

  /** A line without quotes yields itself minus its last character: `slice(0, -1)`. */
  lemma TarballSourceUnquoted(line: string)
    requires '"' !in line
    ensures TarballSource(line) == if line == "" then "" else line[..|line| - 1]
  {
  }

  /** A line with a single quote yields the empty string. */
  lemma TarballSourceSingleQuote(pre: string, post: string)
    requires '"' !in pre && '"' !in post
    ensures TarballSource(pre + ['"'] + post) == ""
  {
    var line := pre + ['"'] + post;
    assert line[..|pre|] == pre && line[|pre| + 1..] == post;
    IndexOfUnique(line, '"', |pre|);
    LastIndexOfUnique(line, '"', |pre|);
  }

  /** The source comes from the first output line that mentions the tarball. */
  lemma PackedTarballFromOutput(lines: seq<string>, k: nat, pre: string, path: string, post: string)
    requires forall i :: 0 <= i < |lines| ==> '\n' !in lines[i]
    requires k < |lines| && lines[k] == pre + ['"'] + path + ['"'] + post
    requires '"' !in pre && '"' !in post
    requires Contains(lines[k], TarballMarker)
    requires forall j :: 0 <= j < k ==> !Contains(lines[j], TarballMarker)
    ensures PackedTarball(Join(lines, '\n')) == Some(path)
  {
    SplitJoin(lines, '\n');
    FindContainingFirst(lines, TarballMarker, k);
    TarballSourceQuoted(pre, path, post);
  }

  /** The tarball keeps its file name and lands in the trimmed tarball directory. */
  lemma DestinationInTarballDir(processCwd: string, cwd: string, tarballDir: string, source: string)
    requires IsPlainSegment(Basename(source))
    ensures var destination := TarballDestination(processCwd, cwd, tarballDir, source);
      && destination == ChildPath(Resolve(processCwd, [cwd, Trim(tarballDir)]), Basename(source))
      && Basename(destination) == Basename(source)
  {
    ResolveChild(processCwd, [cwd, Trim(tarballDir)], Basename(source));
    assert [cwd, Trim(tarballDir)] + [Basename(source)] == [cwd, Trim(tarballDir), Basename(source)];
    BasenameOfChild(Resolve(processCwd, [cwd, Trim(tarballDir)]), Basename(source));
  }

  /** A plain `pkgRoot` names a sub-directory of a normalised `cwd`. */
  lemma BasePathSubdirectory(processCwd: string, cwd: seq<string>, pkgRoot: string)
    requires AllPlain(cwd) && IsPlainSegment(pkgRoot)
    ensures BasePath(processCwd, Rooted(cwd), Some(pkgRoot)) == Rooted(cwd + [pkgRoot])
  {
    ResolveRootedChild(processCwd, cwd, pkgRoot);
  }

  /** `".".trim()` is `"."`. */
  lemma TrimDot()
    ensures Trim(".") == "."
  {
    assert !IsJsWhitespace('.');
    assert TrimStart(".") == ".";
  }

  /** With `tarballDir` `"."`, a tarball already in a normalised `cwd` is its own destination. */
  lemma DestinationOfDotDir(processCwd: string, cwd: seq<string>, name: string)
    requires AllPlain(cwd) && IsPlainSegment(name)
    ensures TarballDestination(processCwd, Rooted(cwd), ".", Rooted(cwd + [name])) == Rooted(cwd + [name])
  {
    BasenameOfRooted(cwd, name);
    TrimDot();
    ResolveRootedDotChild(processCwd, cwd, name);
  }

  /** With a plain `tarballDir`, the destination is that sub-directory of a normalised `cwd`. */
  lemma DestinationOfPlainDir(processCwd: string, cwd: seq<string>, dir: string, source: string)
    requires AllPlain(cwd) && IsPlainSegment(dir) && Trim(dir) == dir
    requires IsPlainSegment(Basename(source))
    ensures TarballDestination(processCwd, Rooted(cwd), dir, source) == Rooted(cwd + [dir, Basename(source)])
  {
    ResolveRootedChildren(processCwd, cwd, dir, Basename(source));
  }

  /** With `tarballDir: '.'`, a tarball yarn already wrote into `cwd` stays put and the step succeeds. */
  lemma TarballAlreadyInPlace(processCwd: string, npmrc: string, pkgRoot: Option<string>, cwd: seq<string>,
                              env: Env, version: string, stdout: string, name: string,
                              versionOut: string, moveStatus: Status)
    requires AllPlain(cwd) && IsPlainSegment(name)
    requires PackedTarball(stdout) == Some(Rooted(cwd + [name]))
    ensures var r := Prepare(processCwd, npmrc, Options(Some("."), pkgRoot), Context(Rooted(cwd), env, version),
                             Exited(versionOut), Exited(stdout), moveStatus);
      |r.effects| == 4 && r.completion == Fulfilled
  {
    DestinationOfDotDir(processCwd, cwd, name);
  }

  /**
   * With a plain `tarballDir`, a tarball yarn wrote into `cwd` is moved, last,
   * into that sub-directory under its own name, and the step settles as the move does.
   */
  lemma TarballMovedIntoDir(processCwd: string, npmrc: string, pkgRoot: Option<string>, cwd: seq<string>,
                            env: Env, version: string, stdout: string, dir: string, name: string,
                            versionOut: string, moveStatus: Status)
    requires AllPlain(cwd) && IsPlainSegment(dir) && Trim(dir) == dir && IsPlainSegment(name)
    requires PackedTarball(stdout) == Some(Rooted(cwd + [name]))
    ensures var r := Prepare(processCwd, npmrc, Options(Some(dir), pkgRoot), Context(Rooted(cwd), env, version),
                             Exited(versionOut), Exited(stdout), moveStatus);
      && |r.effects| == 5
      && r.effects[4] == Move(Rooted(cwd + [name]), Rooted(cwd + [dir, name]))
      && r.completion == (if moveStatus.Done? then Fulfilled else Rejected(moveStatus.error))
  {
    var r := Prepare(processCwd, npmrc, Options(Some(dir), pkgRoot), Context(Rooted(cwd), env, version),
                     Exited(versionOut), Exited(stdout), moveStatus);
    MovedFromCwd(processCwd, cwd, dir, name, stdout, moveStatus);
    assert |r.effects[4..]| == 1;
  }

  /** What follows `yarn pack` when the tarball is in `cwd` and `tarballDir` is a plain sub-directory. */
  lemma MovedFromCwd(processCwd: string, cwd: seq<string>, dir: string, name: string, stdout: string, moveStatus: Status)
    requires AllPlain(cwd) && IsPlainSegment(dir) && Trim(dir) == dir && IsPlainSegment(name)
    requires PackedTarball(stdout) == Some(Rooted(cwd + [name]))
    ensures AfterPack(processCwd, Rooted(cwd), dir, Exited(stdout), moveStatus) ==
      Run([Move(Rooted(cwd + [name]), Rooted(cwd + [dir, name]))],
          if moveStatus.Done? then Fulfilled else Rejected(moveStatus.error))
  {
    var source := Rooted(cwd + [name]);
    MovedFromCwdDestination(processCwd, cwd, dir, name);
    assert source != TarballDestination(processCwd, Rooted(cwd), dir, source);
  }

  /** The destination of a tarball in `cwd` for a plain `tarballDir` is a different path. */
  lemma MovedFromCwdDestination(processCwd: string, cwd: seq<string>, dir: string, name: string)
    requires AllPlain(cwd) && IsPlainSegment(dir) && Trim(dir) == dir && IsPlainSegment(name)
    ensures var source := Rooted(cwd + [name]);
      && TarballDestination(processCwd, Rooted(cwd), dir, source) == Rooted(cwd + [dir, name])
      && source != Rooted(cwd + [dir, name])
  {
    var source := Rooted(cwd + [name]);
    BasenameOfRooted(cwd, name);
    DestinationOfPlainDir(processCwd, cwd, dir, source);
    assert AllPlain(cwd + [name]) && AllPlain(cwd + [dir, name]);
    RootedInjective(cwd + [name], cwd + [dir, name]);
  }
}
