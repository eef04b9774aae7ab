/**
 * What the release steps do to the outside world, as values.  A step is
 * modelled as the ordered list of effects it performs together with how its
 * promise settles; what a subprocess, a file move or a credential write
 * reports back is an input.
 */
module Effects {
  /** A process environment. */
  type Env = map<string, string>

  /** An `execa(file, args, {cwd, env, preferLocal})` call. */
  datatype Command = Command(file: string, args: seq<string>, cwd: string, env: Env, preferLocal: bool)

  /** The value `getError(code, {registry})` builds. */
  datatype PluginError = PluginError(code: string, registry: string)

  datatype Error =
    | Thrown(detail: string)              // raised by a collaborator and passed on untouched
    | MissingTarballLine                  // the TypeError from calling `slice` on `undefined`
    | Aggregate(errors: seq<PluginError>) // an `AggregateError`

  /** How an awaited subprocess ends: its captured standard output, or the error it rejects with. */
  datatype Outcome = Exited(stdout: string) | Threw(error: Error)

  /** How an awaited call without a result ends. */
  datatype Status = Done | Failed(error: Error)

  datatype Effect =
    | Log(format: string, values: seq<string>)   // `logger.log(format, ...values)`
    | Exec(command: Command)                     // a subprocess, its output relayed to the context's sinks
    | WriteAuth(npmrc: string, registry: string) // `setNpmrcAuth(npmrc, registry, context)`
    | Move(source: string, destination: string)  // fs-extra `move(source, destination)`

  /** How the step's promise settles. */
  datatype Completion = Fulfilled | Rejected(error: Error)

  datatype Run = Run(effects: seq<Effect>, completion: Completion)
}
