/**
 * The auth check: write the registry credentials into the npmrc file, and,
 * when the package publishes to the default registry, ask `npm whoami`
 * whether they identify a user.  `getRegistry`'s answer is the `registry`
 * parameter and `normalize-url` is the uninterpreted `normalizeUrl`, which
 * may throw.
 */
module VerifyAuth {
  import opened Wrappers
  import opened Effects

  const DefaultRegistryVar := "DEFAULT_NPM_REGISTRY"
  const NpmjsRegistry := "https://registry.npmjs.org/"
  const InvalidTokenCode := "EINVALIDNPMTOKEN"
  /** What some registries print for `whoami` when the token is not valid. */
  const UnauthenticatedOutput := "undefined"

  /** The parts of the release context the check reads: working directory and environment. */
  datatype Context = Context(cwd: string, env: Env)

  /**
   * `const {DEFAULT_NPM_REGISTRY = 'https://registry.npmjs.org/', ...env} = context.env`:
   * the default registry, and the environment the check passes on.
   */
  function SplitDefaultRegistry(env: Env): (r: (string, Env))
    ensures DefaultRegistryVar !in env ==> r.0 == NpmjsRegistry
    ensures DefaultRegistryVar in env ==> r.0 == env[DefaultRegistryVar]
    ensures r.1.Keys == env.Keys - {DefaultRegistryVar}
    ensures forall k :: k in r.1 ==> r.1[k] == env[k]
  {
    (if DefaultRegistryVar in env then env[DefaultRegistryVar] else NpmjsRegistry, env - {DefaultRegistryVar})
  }

  /**
   * The line-19 comparison `normalizeUrl(registry) === normalizeUrl(default)`,
   * evaluated left to right: the first normalisation that throws is the
   * outcome, otherwise whether the two normalised URLs are equal.
   */
  function Gate(normalizeUrl: string -> Result<string, Error>, registry: string, env: Env): (r: Result<bool, Error>)
    ensures normalizeUrl(registry).Failure? ==> r == Failure(normalizeUrl(registry).error)
    ensures var d := normalizeUrl(SplitDefaultRegistry(env).0);
      normalizeUrl(registry).Success? && d.Failure? ==> r == Failure(d.error)
    ensures r.Success? <==> normalizeUrl(registry).Success? && normalizeUrl(SplitDefaultRegistry(env).0).Success?
    ensures r.Success? ==> (r.value <==> normalizeUrl(registry).value == normalizeUrl(SplitDefaultRegistry(env).0).value)
  {
    match normalizeUrl(registry)
    case Failure(e) => Failure(e)
    case Success(url) =>
      match normalizeUrl(SplitDefaultRegistry(env).0)
      case Failure(e) => Failure(e)
      case Success(defaultUrl) => Success(url == defaultUrl)
  }

  /** The identity check runs only for the default registry, compared after normalisation. */
  predicate ChecksIdentity(normalizeUrl: string -> Result<string, Error>, registry: string, env: Env)
    ensures ChecksIdentity(normalizeUrl, registry, env) ==>
      normalizeUrl(registry).Success? && normalizeUrl(registry) == normalizeUrl(SplitDefaultRegistry(env).0)
  {
    Gate(normalizeUrl, registry, env) == Success(true)
  }

  /** `npm whoami` succeeded with a real user name. */
  predicate Authenticated(whoami: Outcome) {
    whoami.Exited? && whoami.stdout != UnauthenticatedOutput
  }

  /** The single error every failed identity check becomes. */
  function InvalidToken(registry: string): Error {
    Aggregate([PluginError(InvalidTokenCode, registry)])
  }

  /**
   * The auth check.  `authWrite` is how `setNpmrcAuth` ends and `whoami` how
   * `npm whoami` ends, when it is run; `normalizeUrl` is `normalize-url`,
   * which throws on a URL it cannot parse.
   */
  function VerifyAuth(npmrc: string, registry: string, context: Context,
                      normalizeUrl: string -> Result<string, Error>,
                      authWrite: Status, whoami: Outcome): (r: Run)
    // the credentials are always written first, and a failure there passes through unchanged
    ensures 1 <= |r.effects| <= 2 && r.effects[0] == WriteAuth(npmrc, registry)
    ensures authWrite.Failed? ==> r == Run([WriteAuth(npmrc, registry)], Rejected(authWrite.error))
    // a URL `normalize-url` cannot parse ends the check with its error, after the write
    ensures authWrite.Done? && Gate(normalizeUrl, registry, context.env).Failure? ==>
      r == Run([WriteAuth(npmrc, registry)], Rejected(Gate(normalizeUrl, registry, context.env).error))
    // `npm whoami` runs exactly when the credentials are written and the registry is the default one
    ensures |r.effects| == 2 <==> authWrite.Done? && ChecksIdentity(normalizeUrl, registry, context.env)
    ensures |r.effects| == 2 ==>
      r.effects[1] == Exec(Command("npm", ["whoami", "--userconfig", npmrc, "--registry", registry],
                                   context.cwd, SplitDefaultRegistry(context.env).1, true))
    // success, and the one error any identity failure becomes
    ensures r.completion == Fulfilled <==>
      && authWrite.Done?
      && Gate(normalizeUrl, registry, context.env).Success?
      && (!ChecksIdentity(normalizeUrl, registry, context.env) || Authenticated(whoami))
    ensures authWrite.Done? && Gate(normalizeUrl, registry, context.env).Success? && r.completion.Rejected? ==>
      r.completion.error == InvalidToken(registry)
  {
    var (defaultRegistry, env) := SplitDefaultRegistry(context.env);
    var written := [WriteAuth(npmrc, registry)];
    match authWrite
    case Failed(e) => Run(written, Rejected(e))
    case Done =>
      match Gate(normalizeUrl, registry, context.env)
      case Failure(e) => Run(written, Rejected(e))
      case Success(isDefault) =>
        if !isDefault then Run(written, Fulfilled)
        else
          var checked := written + [Exec(Command("npm", ["whoami", "--userconfig", npmrc, "--registry", registry],
                                                 context.cwd, env, true))];
          match whoami
          case Exited(stdout) =>
            if stdout == UnauthenticatedOutput then Run(checked, Rejected(InvalidToken(registry)))
            else Run(checked, Fulfilled)
          case Threw(_) => Run(checked, Rejected(InvalidToken(registry)))
  }

  /**
   * Without `DEFAULT_NPM_REGISTRY`, a registry that normalises like the npm
   * registry is checked, and a failing `whoami` reports that registry.
   */
  lemma UnsetDefaultChecksNpmjs(npmrc: string, registry: string, context: Context,
                                normalizeUrl: string -> Result<string, Error>, whoami: Outcome)
    requires DefaultRegistryVar !in context.env
    requires normalizeUrl(registry).Success? && normalizeUrl(registry) == normalizeUrl(NpmjsRegistry)
    requires !Authenticated(whoami)
    ensures var r := VerifyAuth(npmrc, registry, context, normalizeUrl, Done, whoami);
      |r.effects| == 2 && r.completion == Rejected(Aggregate([PluginError("EINVALIDNPMTOKEN", registry)]))
  {
  }

  /** `normalizeUrl` matters only through the one comparison it takes part in. */
  lemma OnlyTheGateDependsOnNormalization(npmrc: string, registry: string, context: Context,
                                          n1: string -> Result<string, Error>, n2: string -> Result<string, Error>,
                                          authWrite: Status, whoami: Outcome)
    requires Gate(n1, registry, context.env) == Gate(n2, registry, context.env)
    ensures VerifyAuth(npmrc, registry, context, n1, authWrite, whoami) ==
            VerifyAuth(npmrc, registry, context, n2, authWrite, whoami)
  {
  }
}
