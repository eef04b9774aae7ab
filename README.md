# semantic-release-yarn: prepare and verify-auth, modelled in Dafny

This project models two release steps of the semantic-release yarn plugin.

- **prepare** (`lib/prepare.js`) writes the next release version into `package.json` with `yarn version`. When a `tarballDir` option is set, it then runs `yarn pack`. It reads the tarball path from the pack output and moves the tarball into `tarballDir`, unless it is already there.
- **verify-auth** (`lib/verify-auth.js`) always writes the registry credentials into the npmrc file first. Only when the package's registry normalises to the default registry (`DEFAULT_NPM_REGISTRY`, or `https://registry.npmjs.org/`) does it run `npm whoami`. Any failure of that check becomes one `EINVALIDNPMTOKEN` aggregate error. A registry URL that `normalize-url` cannot parse ends the step with that error instead, because the comparison sits outside the `try`.

Each step is a function that returns a `Run`: the ordered effects it performs (log calls, subprocesses, credential write, move) and how its promise settles. What a subprocess, the move or `setNpmrcAuth` reports back is a parameter. `process.cwd()` is a parameter too. `normalize-url` is a function-typed parameter that either returns a normalised URL or throws; nothing else is assumed about it. The registry that `getRegistry` returns is also a parameter.

The text processing behind the steps is modelled on strings:
- the JavaScript built-ins `indexOf`, `lastIndexOf`, `slice` (negative indices included), `split`, `trim`, a literal regular-expression `test` and `Array.prototype.find`;
- Node's POSIX `path.resolve` and `path.basename`.

Files:
- `wrappers.dfy`: `Option` and `Result`.
- `js_string.dfy`: the JavaScript string built-ins.
- `posix_path.dfy`: `resolve` and `basename`.
- `effects.dfy`: commands, effects, errors and outcomes.
- `prepare.dfy`: the prepare step.
- `verify_auth.dfy`: the auth check.

Behaviour of the code that the model keeps:
- The tarball path is taken with `slice(indexOf('"') + 1, lastIndexOf('"'))`, and nothing checks that it succeeded. A line with no quote yields the line minus its last character. A line with one quote yields `""`. Neither fails (`Prepare.TarballSourceUnquoted`, `Prepare.TarballSourceSingleQuote`).
- When no output line contains `Wrote tarball to`, `find` returns `undefined`. The step then fails with the `TypeError` raised by calling `slice` on it. The model calls that error `Error.MissingTarballLine`.
- The move is skipped when the raw extracted string equals the resolved destination. The source is not resolved first.
- A failing move rejects with whatever `move` throws, unchanged.

## Model

| member | source | states |
|---|---|---|
| `JsString.IndexOf` | lib/prepare.js:33 | the result is -1 exactly when the character is absent; otherwise it is the first position holding it |
| `JsString.LastIndexOf` | lib/prepare.js:33 | the result is -1 exactly when the character is absent; otherwise it is the last position holding it |
| `JsString.IndexOfUnique` | lib/prepare.js:33 | `indexOf` finds the quote that has no quote before it |
| `JsString.LastIndexOfUnique` | lib/prepare.js:33 | `lastIndexOf` finds the quote that has no quote after it |
| `JsString.ContainsIff` | lib/prepare.js:32 | the literal regular-expression test passes exactly when the pattern occurs at some position of the line |
| `JsString.ContainsFactor` | lib/prepare.js:32 | any line with `Wrote tarball to` somewhere in it passes the test, whatever surrounds it |
| `JsString.Split` | lib/prepare.js:32 | splitting yields at least one piece, and no piece holds the separator |
| `JsString.SplitJoin` | lib/prepare.js:32 | splitting a join of separator-free lines gives those lines back |
| `JsString.JoinSplit` | lib/prepare.js:32 | joining the pieces of a split restores the original output |
| `JsString.Slice` | lib/prepare.js:33 | `slice` selects exactly `s[start..end]` for in-range indices, counts a negative end back from the end of the string, gives `""` when the start is at or past the end, and only returns characters of the string; `Prepare.TarballSourceUnquoted`, `Prepare.TarballSourceSingleQuote` and `Prepare.TarballSourceBetween` pin its clamping on tarball lines |
| `JsString.Contains` | lib/prepare.js:32 | a pattern passes the test only on a line at least as long as itself, and the empty pattern passes on every line; `JsString.ContainsIff` ties it to an occurrence at some position |
| `JsString.FindContaining` | lib/prepare.js:32 | `find` gives `undefined` exactly when no line matches; otherwise it gives a matching line of the list |
| `JsString.FindContainingFirst` | lib/prepare.js:32 | `find` gives the first matching line |
| `JsString.TrimStart` | lib/prepare.js:34 | the result is a suffix of the input; everything cut off is whitespace; the result does not start with whitespace |
| `JsString.TrimEnd` | lib/prepare.js:34 | the result is a prefix of the input; everything cut off is whitespace; the result does not end with whitespace |
| `JsString.Trim` | lib/prepare.js:34 | `trim` never lengthens the string, and what it returns neither starts nor ends with whitespace; `JsString.TrimExactly` determines it |
| `JsString.TrimExactly` | lib/prepare.js:34 | `trim` removes exactly the leading and trailing whitespace runs and keeps the rest |
| `PosixPath.Components` | lib/prepare.js:6 | every component `path.resolve` keeps is a plain name: no empty, `.` or `..` part survives |
| `PosixPath.Resolve` | lib/prepare.js:6 | `path.resolve` always gives an absolute path |
| `PosixPath.StripTrailingSlashes` | lib/prepare.js:34 | basename first drops exactly the trailing slashes |
| `PosixPath.Basename` | lib/prepare.js:34 | the base name holds no slash and is the end of the path once its trailing slashes are dropped, starting just after a slash or at the start: `basename('/a/b/')` is `b` |
| `PosixPath.RootedInjective` | lib/prepare.js:38 | two normalised paths are the same string exactly when they have the same components |
| `PosixPath.ResolveNormalized` | lib/prepare.js:6 | a resolved path is the root followed by plain names |
| `PosixPath.ResolveRooted` | lib/prepare.js:6 | resolving an already normalised absolute path returns it unchanged |
| `PosixPath.ResolveIdempotent` | lib/prepare.js:6 | resolving a resolved path again changes nothing |
| `PosixPath.ResolveDot` | lib/prepare.js:34 | a `.` argument (a `tarballDir` of `.`) leaves the resolved directory unchanged |
| `PosixPath.ResolveParent` | lib/prepare.js:34 | a `..` argument drops the last component of what the other arguments resolve to, and stays at the root |
| `PosixPath.ResolveEmpty` | lib/prepare.js:34 | a zero-length argument (a blank `tarballDir` once trimmed) is skipped |
| `PosixPath.ResolveFromCwd` | lib/prepare.js:6 | without an absolute argument, `resolve` starts from `process.cwd()`, as if it were passed first |
| `PosixPath.ResolveChild` | lib/prepare.js:34 | a trailing plain-name argument names that entry of the directory the other arguments resolve to |
| `PosixPath.ResolveAbsoluteOverrides` | lib/prepare.js:6 | an absolute argument (an absolute `pkgRoot` or `tarballDir`) discards everything before it |
| `PosixPath.ChildOfRooted` | lib/prepare.js:34 | the child path of a normalised directory is the normalised path one component longer |
| `PosixPath.BasenameOfChild` | lib/prepare.js:34 | the base name of a child path is the child's name |
| `PosixPath.BasenameOfRooted` | lib/prepare.js:34 | the base name of a normalised path is its last component |
| `PosixPath.ResolveRootedDotChild` | lib/prepare.js:34 | `resolve(dir, '.', name)` for a normalised `dir` and a plain `name` is `dir/name` |
| `PosixPath.ResolveRootedChild` | lib/prepare.js:6 | `resolve(dir, a)` is `dir/a` for a normalised `dir` and a plain `a` |
| `PosixPath.ResolveRootedChildren` | lib/prepare.js:34 | `resolve(dir, a, b)` is `dir/a/b` for a normalised `dir` and plain `a`, `b` |
| `Prepare.Truthy` | lib/prepare.js:6 | an unset option is falsy, and a set one is truthy exactly when it is not the empty string |
| `Prepare.BasePath` | lib/prepare.js:6 | without a truthy `pkgRoot` the base path is exactly `cwd`; with one it is a normalised absolute path |
| `Prepare.BasePathSubdirectory` | test/prepare.test.js:71-97 | `pkgRoot: 'dist'` under a normalised `cwd` gives the `dist` sub-directory |
| `Prepare.WithUserConfig` | lib/prepare.js:10 | the overlay sets `NPM_CONFIG_USERCONFIG` to the npmrc path and leaves every other variable as it was |
| `Prepare.TarballLine` | lib/prepare.js:32 | the line is `undefined` exactly when no output line mentions `Wrote tarball to`; otherwise it is one of the output lines, holds no newline and mentions the marker |
| `Prepare.TarballSource` | lib/prepare.js:33 | the source is the text strictly between the first and the last quote when they differ, `""` when the line has one quote, always shorter than a non-empty line, and made of the line's characters |
| `Prepare.PackedTarball` | lib/prepare.js:32-33 | there is no source exactly when no output line mentions `Wrote tarball to`; a source never spans lines |
| `Prepare.TarballDestination` | lib/prepare.js:34 | the destination is a normalised absolute path |
| `Prepare.AfterPack` | lib/prepare.js:32-40 | at most one effect follows the pack command; a failing pack, or no tarball line, ends the step with that error; otherwise it moves source to destination exactly when they differ, and the move's failure is the step's |
| `Prepare.Prepare` | lib/prepare.js:5-42 | see the list after this table |
| `Prepare.TarballSourceBetween` | lib/prepare.js:33 | the source is exactly the text strictly between the first and the last quote of the line |
| `Prepare.TarballSourceQuoted` | lib/prepare.js:33 | a line `pre"P"post` with no quote in `pre` or `post` yields exactly `P` |
| `Prepare.TarballSourceUnquoted` | lib/prepare.js:33 | a line with no quote yields the line minus its last character, or `""` for an empty line |
| `Prepare.TarballSourceSingleQuote` | lib/prepare.js:33 | a line with a single quote yields `""` |
| `Prepare.PackedTarballFromOutput` | lib/prepare.js:32-33 | in multi-line pack output, the source is the quoted path on the first line mentioning `Wrote tarball to` |
| `Prepare.DestinationInTarballDir` | lib/prepare.js:34 | the destination is the tarball's own base name inside the trimmed `tarballDir`, resolved against `cwd` |
| `Prepare.DestinationOfDotDir` | lib/prepare.js:34 | with `tarballDir` `.`, a tarball already in `cwd` is its own destination |
| `Prepare.DestinationOfPlainDir` | lib/prepare.js:34 | with a plain `tarballDir`, the destination is `cwd/tarballDir/<base name>` |
| `Prepare.TarballAlreadyInPlace` | test/prepare.test.js:157-183 | with `tarballDir: '.'` and the tarball written into `cwd`, nothing moves and the step succeeds after four effects |
| `Prepare.MovedFromCwdDestination` | lib/prepare.js:34-38 | for a tarball in `cwd` and a plain `tarballDir`, the destination is `cwd/tarballDir/<name>`, which differs from the source |
| `Prepare.MovedFromCwd` | lib/prepare.js:32-40 | after `yarn pack` writes `cwd/<name>` with a plain `tarballDir`, the only effect is the move to `cwd/tarballDir/<name>`, and the step settles as the move does |
| `Prepare.TarballMovedIntoDir` | test/prepare.test.js:129-155 | with `tarballDir: 'tarball'` and the tarball written into `cwd`, the step ends after five effects; the fifth moves `cwd/<name>` to `cwd/tarball/<name>`, and the step settles as the move does |
| `VerifyAuth.SplitDefaultRegistry` | lib/verify-auth.js:11 | the default registry is `DEFAULT_NPM_REGISTRY`, or `https://registry.npmjs.org/` when it is unset; the passed-on environment lacks that key and is otherwise unchanged |
| `VerifyAuth.Gate` | lib/verify-auth.js:19 | the comparison throws the registry's normalisation error first, then the default's; when both parse it is true exactly when the normalised URLs are equal |
| `VerifyAuth.ChecksIdentity` | lib/verify-auth.js:19 | the identity check runs only when the registry parses and normalises to the same URL as the default registry |
| `VerifyAuth.VerifyAuth` | lib/verify-auth.js:8-37 | see the list after this table |
| `VerifyAuth.UnsetDefaultChecksNpmjs` | lib/verify-auth.js:11-34 | with `DEFAULT_NPM_REGISTRY` unset and a registry that parses and normalises like npmjs, a failing or `undefined` `whoami` rejects with `EINVALIDNPMTOKEN` for that registry |
| `VerifyAuth.OnlyTheGateDependsOnNormalization` | lib/verify-auth.js:19 | two normalisers whose comparisons end alike (the same error, or the same verdict) give the same run |

`Prepare.Prepare` states:
- The first effect logs `Write version %s to package.json in %s` with the version and the base path.
- The second effect runs `yarn` with exactly `version --new-version <version> --no-git-tag-version`, in the base path, with the `NPM_CONFIG_USERCONFIG` overlay.
- A failing version command ends the step with its own error, and nothing follows it.
- Without a truthy `tarballDir`, the version command is the only command.
- More effects follow exactly when the version command succeeded and `tarballDir` is truthy. They are the log `Creating yarn package version %s` and then `yarn pack --cwd <base path>`, run in `cwd` with the same overlay.
- Everything after the pack command is `Prepare.AfterPack`'s: its effects follow the first four, and the step settles as it does. So a failing pack, or output with no `Wrote tarball to` line, ends the step with that error after four effects. Otherwise a move happens exactly when the extracted source differs from the destination. The move is then the fifth and last effect, from exactly the source to exactly the destination, and the step settles as the move does.

`VerifyAuth.VerifyAuth` states:
- The credential write is always the first effect. Its failure passes through unchanged, not as `EINVALIDNPMTOKEN`.
- When the write succeeded but `normalize-url` throws on the registry or on the default registry, the step ends after the write with that error (the registry's first), not as `EINVALIDNPMTOKEN`.
- `npm whoami --userconfig <npmrc> --registry <registry>` is the second and last effect. It runs in `cwd`, with the environment minus `DEFAULT_NPM_REGISTRY`. It runs exactly when the write succeeded and the normalised registry equals the normalised default.
- The check succeeds exactly when the write succeeded, both URLs normalise, and either the registry is not the default or `whoami` exited with output other than `undefined`.
- Once the write succeeded and both URLs normalise, every rejection is the single aggregate error `EINVALIDNPMTOKEN` for the registry.

## Left out

- Process spawning, `preferLocal` binary lookup and the live relay of subprocess output into the context's `stdout`/`stderr` with `{end: false}`. Each is I/O and stream concurrency. A command is an `Exec` effect, and its outcome is a parameter.
- The outcome parameters carry output as execa reports it, with the final newline already stripped.
- execa also merges `process.env` under the `env` it is given. The model records only the `env` argument. So a `DEFAULT_NPM_REGISTRY` in the parent process environment still reaches `npm whoami`; the model does not show this.
- fs-extra `move` and the file system are modelled only as the `Move` effect and its reported status.
- The content of `package.json`, its formatting, and `yarn.lock` are left out. `yarn version` rewrites them, not this code.
- `normalize-url`, `getRegistry`, `setNpmrcAuth` and `getError` are not part of this model. They are kept abstract, and nothing about their internals is assumed. The first is an uninterpreted parameter that returns a URL or an error, and the second's answer is a parameter. The third is the `WriteAuth` effect with a reported status. The fourth's result is `PluginError(code, registry)`.
- A `getRegistry` that throws is not modelled.
- Logger formatting is left out. A log is recorded as its format string and arguments.
- `path.resolve` treats `process.cwd()` as rooted, as Node reports it. Windows path semantics are not modelled.
- JavaScript strings are UTF-16 code-unit sequences. The model uses `char` sequences, which differ only for characters outside the Basic Multilingual Plane.
- The environment is a map from names to strings. An environment entry whose value is `undefined` is not modelled; the destructuring default would apply to it as to a missing key.
- `VerifyAuth.UnsetDefaultChecksNpmjs`: `normalize-url` is uninterpreted. So this states the npmjs case under the assumption that `registry` parses and normalises like `https://registry.npmjs.org/`. It does not show that, for example, a trailing slash is ignored.
- `VerifyAuth.VerifyAuth`: the aggregate error does not keep the original failure. The source discards it too (`catch` without a binding).
