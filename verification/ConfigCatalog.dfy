/** Loading the provider, model and route sections of a config, where a route's key comes from,
    and the read model that the command line shows. */
module ConfigCatalog {
  import opened Prelude
  import opened JsValues

  // ----- Providers -----

  /** The part of a validated provider that concerns authentication. */
  datatype Provider = Provider(apiKey: Option<string>, apiKeyEnv: Option<string>)

  /** `/^[\x09\x20-\x7e]*$/`. */
  predicate HasSafeHeaderCharset(value: string) {
    forall i :: 0 <= i < |value| ==> value[i] == '\t' || ' ' <= value[i] <= '~'
  }

  /** `/^SWITCHMAXXER_[A-Z][A-Z0-9_]*$/`. */
  predicate IsManagedEnvVarName(name: string) {
    && "SWITCHMAXXER_" <= name && |name| > 13 && 'A' <= name[13] <= 'Z'
    && forall i :: 13 < i < |name| ==> 'A' <= name[i] <= 'Z' || '0' <= name[i] <= '9' || name[i] == '_'
  }

  /** `getNullableStringField(...) ?? null`: missing and null both give `None`. */
  function NullableString(candidate: JsValue, field: string): Result<Option<string>, ()> {
    match Field(candidate, field)
    case None => Ok(None)
    case Some(Null) => Ok(None)
    case Some(Str(text)) => if IsBlank(text) then Err(()) else Ok(Some(text))
    case Some(_) => Err(())
  }

  /** `validateServiceProviderConfig`; `flatChecks` are its checks of the other fields. */
  function ValidateProvider(v: JsValue, flatChecks: JsValue -> bool): Option<Provider> {
    var key, env := NullableString(v, "api_key"), NullableString(v, "api_key_env");
    if !v.Obj? || !flatChecks(v) || key.Err? || env.Err? then None
    else if key.value.Some? && !HasSafeHeaderCharset(key.value.value) then None
    else if env.value.Some? && !IsManagedEnvVarName(env.value.value) then None
    else if Field(v, "api_key").None? && Field(v, "api_key_env").None? then None
    else Some(Provider(key.value, env.value))
  }

  /** The printable characters that a header may carry: tab, and the codes 32 to 126. */
  lemma HeaderCharset(value: string)
    ensures HasSafeHeaderCharset(value) <==>
      forall i :: 0 <= i < |value| ==> value[i] as int == 9 || 32 <= value[i] as int <= 126
  {
  }

  /** Capitals (65 to 90), digits (48 to 57) and underscores (95), a capital first. */
  predicate CapitalWord(word: string) {
    && word != "" && 65 <= word[0] as int <= 90
    && forall i :: 0 <= i < |word| ==>
      65 <= word[i] as int <= 90 || 48 <= word[i] as int <= 57 || word[i] as int == 95
  }

  /** A managed name is the prefix and such a word. */
  lemma ManagedNames(name: string)
    ensures IsManagedEnvVarName(name) <==> exists word :: CapitalWord(word) && name == "SWITCHMAXXER_" + word
  {
    var prefix := "SWITCHMAXXER_";
    if IsManagedEnvVarName(name) {
      var word := name[13..];
      assert name == prefix + word;
      assert forall i :: 0 <= i < |word| ==> word[i] == name[13 + i];
      assert CapitalWord(word);
    }
    if word :| CapitalWord(word) && name == prefix + word {
      assert forall i :: 13 <= i < |name| ==> name[i] == word[i - 13];
    }
  }

  /** What a field may hold: nothing, null, or a string that is not blank and passes the check. */
  predicate OptionalString(v: JsValue, field: string, check: string -> bool) {
    match Field(v, field)
    case None => true
    case Some(Null) => true
    case Some(Str(text)) => Trim(text) != "" && check(text)
    case Some(_) => false
  }

  /** Exactly when a provider entry is valid. */
  lemma ProviderLoadsExactly(v: JsValue, flatChecks: JsValue -> bool)
    ensures ValidateProvider(v, flatChecks).Some? <==>
      && v.Obj? && flatChecks(v)
      && OptionalString(v, "api_key", HasSafeHeaderCharset) && OptionalString(v, "api_key_env", IsManagedEnvVarName)
      && (Field(v, "api_key").Some? || Field(v, "api_key_env").Some?)
  {
    hide HasSafeHeaderCharset, IsManagedEnvVarName, IsBlank, Field, Trim;
    forall text ensures IsBlank(text) <==> Trim(text) == "" {
      BlankIsTrimmedEmpty(text);
    }
  }

  // ----- Routes -----

  datatype Route = Route(
    serviceProvider: string, model: string,
    inlineApiKey: Option<string>, apiKeyEnv: Option<string>, apiKeyOverride: Option<string>)

  type Env = map<string, string>

  /** The secrets file's `api_key_overrides`, `None` when it is not loaded. */
  type Overrides = Option<map<string, string>>

  function NonBlankField(v: JsValue, field: string): Option<string> {
    match Field(v, field)
    case Some(Str(text)) => if IsBlank(text) then None else Some(text)
    case _ => None
  }

  function OverrideOf(p: Provider, overrides: Overrides): Option<string> {
    if p.apiKey.Some? || p.apiKeyEnv.None? || overrides.None? || p.apiKeyEnv.value !in overrides.value then None
    else Some(overrides.value[p.apiKeyEnv.value])
  }

  /** The provider's key can be had now: lines 257-281 of the route validator do not throw. */
  predicate AuthResolves(p: Provider, overrides: Overrides, env: Env) {
    p.apiKey.None? && p.apiKeyEnv.Some? ==>
      var name := p.apiKeyEnv.value;
      if OverrideOf(p, overrides).Some? then HasSafeHeaderCharset(OverrideOf(p, overrides).value)
      else name in env && !IsBlank(env[name]) && HasSafeHeaderCharset(env[name])
  }

  /** `validateRouteConfig`; `flatChecks` are its checks of the other fields. */
  function ValidateRoute(
    v: JsValue, providers: map<string, Provider>, models: set<string>,
    requireAuth: bool, overrides: Overrides, env: Env,
    flatChecks: JsValue -> bool): Option<Route>
  {
    var model, provider := NonBlankField(v, "model"), NonBlankField(v, "service_provider");
    if !v.Obj? || !flatChecks(v) || model.None? || provider.None? then None
    else if model.value !in models || provider.value !in providers then None
    else
      var p := providers[provider.value];
      if requireAuth && !AuthResolves(p, overrides, env) then None
      else Some(Route(provider.value, model.value, p.apiKey, p.apiKeyEnv, OverrideOf(p, overrides)))
  }

  /** Exactly when a route entry is valid: it names a loaded model and a loaded provider and, where
      keys must be there, that provider's key can be had. */
  lemma RouteLoadsExactly(
    v: JsValue, providers: map<string, Provider>, models: set<string>,
    requireAuth: bool, overrides: Overrides, env: Env, flatChecks: JsValue -> bool)
    ensures ValidateRoute(v, providers, models, requireAuth, overrides, env, flatChecks).Some? <==>
      && v.Obj? && flatChecks(v)
      && exists model, provider ::
        && Field(v, "model") == Some(Str(model)) && Trim(model) != "" && model in models
        && Field(v, "service_provider") == Some(Str(provider)) && Trim(provider) != "" && provider in providers
        && (requireAuth ==> AuthResolves(providers[provider], overrides, env))
  {
    hide AuthResolves, OverrideOf, IsBlank, Field, Trim;
    forall text ensures IsBlank(text) <==> Trim(text) == "" {
      BlankIsTrimmedEmpty(text);
    }
  }

  // ----- Where the key comes from -----

  datatype AuthSource = InlineOverride | SecretsOverride | EnvVar | NotRequired

  datatype Resolution = Resolved(apiKey: Option<string>, source: AuthSource) | MissingOrEmpty | InvalidCharset

  /** `resolveRouteApiKey`, with a note of the branch that gave the key. */
  function ResolveRouteApiKey(route: Route, env: Env): Resolution {
    if route.inlineApiKey.Some? then Checked(route.inlineApiKey.value, InlineOverride)
    else if route.apiKeyEnv.None? then Resolved(None, NotRequired)
    else if route.apiKeyOverride.Some? then Checked(route.apiKeyOverride.value, SecretsOverride)
    else if route.apiKeyEnv.value !in env || IsBlank(env[route.apiKeyEnv.value]) then MissingOrEmpty
    else Checked(env[route.apiKeyEnv.value], EnvVar)
  }

  function Checked(apiKey: string, source: AuthSource): Resolution {
    if HasSafeHeaderCharset(apiKey) then Resolved(Some(apiKey), source) else InvalidCharset
  }

  /** `getAuthSource`, the label of the read model. */
  function GetAuthSource(p: Provider, apiKeyOverrides: map<string, string>): AuthSource {
    if p.apiKey.Some? then InlineOverride
    else if p.apiKeyEnv.Some? then if p.apiKeyEnv.value in apiKeyOverrides then SecretsOverride else EnvVar
    else NotRequired
  }

  // ----- Loading -----

  /** A value as JSON gives it: an object has one value per key and no key twice. */
  ghost predicate IsSection(v: JsValue) {
    v.Obj? ==> |v.keys| == |v.values| && Distinct(v.keys)
  }

  /** `assertSafeObjectKey` passes for every name of the section. */
  predicate SafeKeys(v: JsValue, reserved: string -> bool)
    requires v.Obj?
  {
    forall i :: 0 <= i < |v.keys| ==> !reserved(v.keys[i])
  }

  /** `m` has exactly the entries of the section, with their validated values. */
  ghost predicate Holds<T>(m: map<string, T>, section: JsValue, validate: JsValue -> Option<T>)
    requires IsSection(section) && section.Obj?
  {
    && (forall name :: name in m <==> name in section.keys)
    && (forall i :: 0 <= i < |section.keys| ==> Some(m[section.keys[i]]) == validate(section.values[i]))
  }

  /** The loop that all three sections share: check the name, validate the entry, store it. */
  method LoadSection<T>(section: JsValue, reserved: string -> bool, validate: JsValue -> Option<T>)
    returns (r: Option<map<string, T>>)
    requires IsSection(section)
    ensures r.Some? <==>
      && section.Obj? && SafeKeys(section, reserved)
      && forall i :: 0 <= i < |section.keys| ==> validate(section.values[i]).Some?
    ensures r.Some? ==> Holds(r.value, section, validate)
  {
    if !section.Obj? {
      return None;
    }
    var m: map<string, T> := map[];
    for i := 0 to |section.keys|
      invariant forall j :: 0 <= j < i ==> !reserved(section.keys[j]) && validate(section.values[j]).Some?
      invariant forall name :: name in m <==> name in section.keys[..i]
      invariant forall j :: 0 <= j < i ==> Some(m[section.keys[j]]) == validate(section.values[j])
    {
      if reserved(section.keys[i]) {
        return None;
      }
      var entry := validate(section.values[i]);
      if entry.None? {
        return None;
      }
      m := m[section.keys[i] := entry.value];
    }
    assert section.keys[..|section.keys|] == section.keys;
    return Some(m);
  }

  datatype Snapshot = Snapshot(providers: map<string, Provider>, models: map<string, ()>, routes: map<string, Route>)

  /** The settings of a load: whether provider keys must be there, the environment, the secrets
      file, the reserved names, and the flat checks of the other fields. */
  datatype Loader = Loader(
    requireAuth: bool, env: Env, overrides: Overrides, reserved: string -> bool, providerChecks: JsValue -> bool,
                           modelChecks: JsValue -> bool, routeChecks: JsValue -> bool) {
    function Providers(): JsValue -> Option<Provider> {
      (v: JsValue) => ValidateProvider(v, providerChecks)
    }

    function Models(): JsValue -> Option<()> {
      (v: JsValue) => if v.Obj? && modelChecks(v) then Some(()) else None
    }

    function Routes(providers: map<string, Provider>, models: set<string>): JsValue -> Option<Route> {
      (v: JsValue) => ValidateRoute(v, providers, models, requireAuth, overrides, env, routeChecks)
    }
  }

  /** The snapshot is what the sections say. */
  ghost predicate IsSnapshot(s: Snapshot, providers: JsValue, models: JsValue, routes: JsValue, loader: Loader) {
    && IsSection(providers) && IsSection(models) && IsSection(routes) && providers.Obj? && models.Obj? && routes.Obj?
    && SafeKeys(providers, loader.reserved) && SafeKeys(models, loader.reserved) && SafeKeys(routes, loader.reserved)
    && routes.keys != []
    && Holds(s.providers, providers, loader.Providers()) && Holds(s.models, models, loader.Models())
    && Holds(s.routes, routes, loader.Routes(s.providers, s.models.Keys))
  }

  /** `loadValidatedConfigSnapshot` on the three catalog sections. */
  method LoadValidatedConfigSnapshot(providers: JsValue, models: JsValue, routes: JsValue, loader: Loader)
    returns (r: Option<Snapshot>)
    requires IsSection(providers) && IsSection(models) && IsSection(routes)
    ensures r.Some? ==> IsSnapshot(r.value, providers, models, routes, loader)
    ensures r.None? ==> forall s :: !IsSnapshot(s, providers, models, routes, loader)
  {
    hide ValidateProvider, ValidateRoute;
    var ps := LoadSection(providers, loader.reserved, loader.Providers());
    if ps.None? {
      return None;
    }
    var ms := LoadSection(models, loader.reserved, loader.Models());
    if ms.None? || !routes.Obj? || routes.keys == [] {
      return None;
    }
    var rs := LoadSection(routes, loader.reserved, loader.Routes(ps.value, ms.value.Keys));
    if rs.None? {
      forall s | IsSnapshot(s, providers, models, routes, loader) ensures false {
        HoldsUnique(s.providers, ps.value, providers, loader.Providers());
        HoldsUnique(s.models, ms.value, models, loader.Models());
      }
      return None;
    }
    return Some(Snapshot(ps.value, ms.value, rs.value));
  }

  lemma HoldsUnique<T>(m: map<string, T>, n: map<string, T>, section: JsValue, validate: JsValue -> Option<T>)
    requires IsSection(section) && section.Obj? && Holds(m, section, validate) && Holds(n, section, validate)
    ensures m == n
  {
    forall name | name in m ensures m[name] == n[name] {
      var i :| 0 <= i < |section.keys| && section.keys[i] == name;
    }
  }

  // ----- Three views of one key -----

  /** The entry of a section under a name. */
  ghost predicate IsEntry(section: JsValue, name: string, entry: JsValue) {
    section.Obj? && |section.keys| == |section.values| &&
    exists i :: 0 <= i < |section.keys| && section.keys[i] == name && section.values[i] == entry
  }

  /** A route says what its entry says: the model and the provider that its fields name. */
  lemma RouteEntry(s: Snapshot, providers: JsValue, models: JsValue, routes: JsValue, loader: Loader, name: string)
    returns (entry: JsValue)
    requires IsSnapshot(s, providers, models, routes, loader) && name in s.routes
    ensures IsEntry(routes, name, entry)
    ensures Field(entry, "model") == Some(Str(s.routes[name].model))
    ensures Field(entry, "service_provider") == Some(Str(s.routes[name].serviceProvider))
  {
    var i :| 0 <= i < |routes.keys| && routes.keys[i] == name;
    EntryOfRoute(s, providers, models, routes, loader, i);
    entry := routes.values[i];
  }

  /** What a provider's entry says about its key: the inline key, or else the value of the variable
      it names, from the secrets file or else from the environment, or else that none is needed. */
  predicate KeyOfEntry(entry: JsValue, overrides: Overrides, env: Env, r: Resolution) {
    match (Field(entry, "api_key"), Field(entry, "api_key_env"))
    case (Some(Str(key)), _) => r == Resolved(Some(key), InlineOverride)
    case (_, Some(Str(name))) =>
      if overrides.Some? && name in overrides.value then r == Resolved(Some(overrides.value[name]), SecretsOverride)
      else name in env && r == Resolved(Some(env[name]), EnvVar)
    case _ => r == Resolved(None, NotRequired)
  }

  /** The route that a snapshot holds under a name, and the provider it was validated with. */
  lemma RouteOfSnapshot(s: Snapshot, providers: JsValue, models: JsValue, routes: JsValue, loader: Loader, name: string)
    requires IsSnapshot(s, providers, models, routes, loader) && name in s.routes
    ensures var route := s.routes[name];
      && route.model in s.models && route.serviceProvider in s.providers
      && var p := s.providers[route.serviceProvider];
         && (loader.requireAuth ==> AuthResolves(p, loader.overrides, loader.env))
         && route.inlineApiKey == p.apiKey && route.apiKeyEnv == p.apiKeyEnv
         && route.apiKeyOverride == OverrideOf(p, loader.overrides)
  {
    hide AuthResolves, OverrideOf;
    var i :| 0 <= i < |routes.keys| && routes.keys[i] == name;
    assert Some(s.routes[name]) == loader.Routes(s.providers, s.models.Keys)(routes.values[i]);
  }

  /** What a loaded provider says about keys, against the entry it was loaded from: an inline key
      is a printable string, a variable name is a managed one, and one of the two fields is there. */
  lemma LoadedProviderFields(s: Snapshot, providers: JsValue, models: JsValue, routes: JsValue, loader: Loader, i: nat)
    requires IsSnapshot(s, providers, models, routes, loader) && i < |providers.keys|
    ensures providers.keys[i] in s.providers
    ensures var p, v := s.providers[providers.keys[i]], providers.values[i];
      && (p.apiKey.Some? ==> Field(v, "api_key") == Some(Str(p.apiKey.value)) && HasSafeHeaderCharset(p.apiKey.value))
      && (p.apiKeyEnv.Some? ==>
            Field(v, "api_key_env") == Some(Str(p.apiKeyEnv.value)) && IsManagedEnvVarName(p.apiKeyEnv.value))
      && (p.apiKey.None? ==> Field(v, "api_key").GetOr(Null) == Null)
      && (p.apiKeyEnv.None? ==> Field(v, "api_key_env").GetOr(Null) == Null)
      && (Field(v, "api_key").Some? || Field(v, "api_key_env").Some?)
  {
    hide IsManagedEnvVarName, HasSafeHeaderCharset, Field;
    assert Some(s.providers[providers.keys[i]]) == loader.Providers()(providers.values[i]);
  }

  /** A provider says what its entry says. */
  lemma ProviderEntry(s: Snapshot, providers: JsValue, models: JsValue, routes: JsValue, loader: Loader, name: string)
    returns (entry: JsValue)
    requires IsSnapshot(s, providers, models, routes, loader) && name in s.providers
    ensures IsEntry(providers, name, entry) && LoadedFrom(s.providers[name], entry)
  {
    var i :| 0 <= i < |providers.keys| && providers.keys[i] == name;
    LoadedProviderFields(s, providers, models, routes, loader, i);
    entry := providers.values[i];
  }

  /** If the runtime load accepts a config, then in the same environment and with the same secrets
      file resolving the key of a route never throws. It gives the key that the config, the secrets
      file or the environment holds for the entry of the route's provider, and takes it from the
      source that the read model names for that provider. */
  lemma RuntimeKeysResolveAsLabelled(
    s: Snapshot, providers: JsValue, models: JsValue, routes: JsValue, loader: Loader, name: string)
    requires IsSnapshot(s, providers, models, routes, loader) && loader.requireAuth && name in s.routes
    ensures var r := ResolveRouteApiKey(s.routes[name], loader.env);
      && s.routes[name].serviceProvider in s.providers
      && r.Resolved?
      && r.source == GetAuthSource(s.providers[s.routes[name].serviceProvider], loader.overrides.GetOr(map[]))
    ensures exists route, provider ::
      && IsEntry(routes, name, route) && IsEntry(providers, s.routes[name].serviceProvider, provider)
      && Field(route, "service_provider") == Some(Str(s.routes[name].serviceProvider))
      && KeyOfEntry(provider, loader.overrides, loader.env, ResolveRouteApiKey(s.routes[name], loader.env))
  {
    var route := RouteEntry(s, providers, models, routes, loader, name);
    RouteOfSnapshot(s, providers, models, routes, loader, name);
    var provider := ProviderEntry(s, providers, models, routes, loader, s.routes[name].serviceProvider);
    hide *;
    ResolvesFromEntry(s.providers[s.routes[name].serviceProvider], s.routes[name], provider, loader);
  }

  /** The loaded provider says of keys what its entry says. */
  ghost predicate LoadedFrom(p: Provider, entry: JsValue) {
    && (p.apiKey.Some? ==> Field(entry, "api_key") == Some(Str(p.apiKey.value)) && HasSafeHeaderCharset(p.apiKey.value))
    && (p.apiKeyEnv.Some? ==> Field(entry, "api_key_env") == Some(Str(p.apiKeyEnv.value)))
    && (p.apiKey.None? ==> Field(entry, "api_key").GetOr(Null) == Null)
    && (p.apiKeyEnv.None? ==> Field(entry, "api_key_env").GetOr(Null) == Null)
  }

  lemma ResolvesFromEntry(p: Provider, route: Route, entry: JsValue, loader: Loader)
    requires LoadedFrom(p, entry) && AuthResolves(p, loader.overrides, loader.env)
    requires route.inlineApiKey == p.apiKey && route.apiKeyEnv == p.apiKeyEnv
    requires route.apiKeyOverride == OverrideOf(p, loader.overrides)
    ensures var r := ResolveRouteApiKey(route, loader.env);
      && r.Resolved? && r.source == GetAuthSource(p, loader.overrides.GetOr(map[]))
      && KeyOfEntry(entry, loader.overrides, loader.env, r)
  {
    hide HasSafeHeaderCharset, IsBlank, Field;
  }

  /** A key is demanded at load time exactly as it is resolved later. */
  lemma AuthResolvesExactly(p: Provider, route: Route, overrides: Overrides, env: Env)
    requires p.apiKey.Some? ==> HasSafeHeaderCharset(p.apiKey.value)
    requires route.inlineApiKey == p.apiKey && route.apiKeyEnv == p.apiKeyEnv
    requires route.apiKeyOverride == OverrideOf(p, overrides)
    ensures AuthResolves(p, overrides, env) <==> ResolveRouteApiKey(route, env).Resolved?
  {
    hide HasSafeHeaderCharset, IsBlank;
  }

  lemma RouteAuthExactly(
    s: Snapshot, providers: JsValue, models: JsValue, routes: JsValue, loader: Loader, i: nat)
    requires IsSnapshot(s, providers, models, routes, loader) && !loader.requireAuth && i < |routes.keys|
    ensures routes.keys[i] in s.routes
    ensures var route, strict := s.routes[routes.keys[i]], loader.(requireAuth := true);
      strict.Routes(s.providers, s.models.Keys)(routes.values[i]) == Some(route) <==>
        ResolveRouteApiKey(route, loader.env).Resolved?
  {
    var name := routes.keys[i];
    assert Some(s.routes[name]) == loader.Routes(s.providers, s.models.Keys)(routes.values[i]);
    RouteOfSnapshot(s, providers, models, routes, loader, name);
    var p := s.providers[s.routes[name].serviceProvider];
    var _ := ProviderEntry(s, providers, models, routes, loader, s.routes[name].serviceProvider);
    hide AuthResolves, OverrideOf, ResolveRouteApiKey, IsSnapshot, Field;
    AuthResolvesExactly(p, s.routes[name], loader.overrides, loader.env);
  }

  /** The load that demands keys accepts, of the configs that load without, exactly those in which
      the key of every route resolves. */
  lemma KeysDemandedExactly(s: Snapshot, providers: JsValue, models: JsValue, routes: JsValue, loader: Loader)
    requires IsSnapshot(s, providers, models, routes, loader) && !loader.requireAuth
    ensures IsSnapshot(s, providers, models, routes, loader.(requireAuth := true)) <==>
      forall name :: name in s.routes ==> ResolveRouteApiKey(s.routes[name], loader.env).Resolved?
  {
    hide ValidateRoute, ValidateProvider, ResolveRouteApiKey;
    var strict := loader.(requireAuth := true);
    SameSectionLoaders(loader, strict);
    forall i | 0 <= i < |routes.keys|
      ensures routes.keys[i] in s.routes
      ensures strict.Routes(s.providers, s.models.Keys)(routes.values[i]) == Some(s.routes[routes.keys[i]]) <==>
        ResolveRouteApiKey(s.routes[routes.keys[i]], loader.env).Resolved?
    {
      RouteAuthExactly(s, providers, models, routes, loader, i);
    }
  }

  /** The command-line load of the same config: no key has to be there, no secrets file is read. */
  function CliLoader(loader: Loader): Loader {
    loader.(requireAuth := false, overrides := None)
  }

  function WithoutOverride(route: Route): Route {
    route.(apiKeyOverride := None)
  }

  /** A config that the runtime accepts is also accepted by the command line, with the same
      providers and models, so that the read model's labels are about the same providers. */
  lemma CliLoadAcceptsToo(s: Snapshot, providers: JsValue, models: JsValue, routes: JsValue, loader: Loader)
    requires IsSnapshot(s, providers, models, routes, loader)
    ensures IsSnapshot(s.(routes := map name | name in s.routes :: WithoutOverride(s.routes[name])),
                       providers, models, routes, CliLoader(loader))
  {
    hide ValidateProvider, ValidateRoute;
    var cli := CliLoader(loader);
    SameSectionLoaders(loader, cli);
    forall i | 0 <= i < |routes.keys|
      ensures Some(WithoutOverride(s.routes[routes.keys[i]])) ==
        cli.Routes(s.providers, s.models.Keys)(routes.values[i])
    {
      assert Some(s.routes[routes.keys[i]]) == loader.Routes(s.providers, s.models.Keys)(routes.values[i]);
      CliRoute(routes.values[i], s.providers, s.models.Keys, loader);
    }
  }

  lemma CliRoute(v: JsValue, providers: map<string, Provider>, models: set<string>, loader: Loader)
    ensures var r := ValidateRoute(v, providers, models, loader.requireAuth,
                                   loader.overrides, loader.env, loader.routeChecks);
      r.Some? ==>
        ValidateRoute(v, providers, models, false, None, loader.env, loader.routeChecks)
          == Some(WithoutOverride(r.value))
  {
    hide AuthResolves, Field;
  }

  lemma SameSectionLoaders(loader: Loader, other: Loader)
    requires loader.providerChecks == other.providerChecks && loader.modelChecks == other.modelChecks
    ensures other.Providers() == loader.Providers() && other.Models() == loader.Models()
  {
  }

  lemma SmallNameIsManaged()
    ensures IsManagedEnvVarName("SWITCHMAXXER_A") && !IsBlank("SWITCHMAXXER_A")
  {
    assert !IsSpace("SWITCHMAXXER_A"[0]);
  }

  /** A small config that the runtime load accepts: one provider with its key in the environment,
      one model, and one route. */
  lemma SmallConfigLoads() returns (s: Snapshot, providers: JsValue, models: JsValue, routes: JsValue, loader: Loader)
    ensures IsSnapshot(s, providers, models, routes, loader) && loader.requireAuth && "r" in s.routes
    ensures ResolveRouteApiKey(s.routes["r"], loader.env) == Resolved(Some("k"), EnvVar)
  {
    var name := "SWITCHMAXXER_A";
    SmallNameIsManaged();
    var provider, model, route :=
      Obj(["api_key_env"], [Str(name)]), Obj([], []), Obj(["model", "service_provider"], [Str("m"), Str("p")]);
    providers, models, routes := Obj(["p"], [provider]), Obj(["m"], [model]), Obj(["r"], [route]);
    loader :=
      Loader(true, map[name := "k"], None, (_: string) => false, (_: JsValue) => true,
             (_: JsValue) => true, (_: JsValue) => true);
    var p := Provider(None, Some(name));
    s := Snapshot(map["p" := p], map["m" := ()], map["r" := Route("p", "m", None, Some(name), None)]);
    assert Field(provider, "api_key_env") == Some(Str(name)) && Field(provider, "api_key") == None;
    assert ValidateProvider(provider, loader.providerChecks) == Some(p);
    assert !IsBlank("m") && !IsBlank("p") && !IsBlank("k") by {
      assert !IsSpace("m"[0]) && !IsSpace("p"[0]) && !IsSpace("k"[0]);
    }
    hide IsBlank, IsManagedEnvVarName, ValidateProvider;
    assert IndexOf(route.keys, "model") == 0;
    assert route.keys[1..] == ["service_provider"] && IndexOf(route.keys, "service_provider") == 1;
    assert ValidateRoute(route, s.providers, s.models.Keys, true, None, loader.env, loader.routeChecks) ==
      Some(s.routes["r"]);
  }

  // ----- The read model -----

  datatype RouteView = RouteView(name: string, model: string, serviceProvider: string)
  datatype ModelView = ModelView(name: string, routeCount: nat)
  datatype ProviderView = ProviderView(name: string, authSource: AuthSource)

  datatype ReadModel = ReadModel(
    models: seq<ModelView>, modelsByName: map<string, ModelView>,
    providers: seq<ProviderView>, providersByName: map<string, ProviderView>,
    routes: seq<RouteView>, routesByName: map<string, RouteView>)

  function CountOf(routes: seq<RouteView>, model: string): nat {
    if routes == [] then 0
    else CountOf(routes[..|routes| - 1], model) + if routes[|routes| - 1].model == model then 1 else 0
  }

  ghost function PositionsOf(routes: seq<RouteView>, model: string): set<nat> {
    set i: nat | i < |routes| && routes[i].model == model
  }

  lemma PositionsStep(routes: seq<RouteView>, model: string)
    requires routes != []
    ensures var last: nat := |routes| - 1;
      PositionsOf(routes, model)
        == PositionsOf(routes[..last], model) + if routes[last].model == model then {last} else {}
  {
  }

  /** The count is the number of positions whose route names the model. */
  lemma {:induction false} CountOfPositions(routes: seq<RouteView>, model: string)
    ensures CountOf(routes, model) == |PositionsOf(routes, model)|
    decreases |routes|
  {
    if routes != [] {
      var last := |routes| - 1;
      CountOfPositions(routes[..last], model);
      PositionsStep(routes, model);
      assert last !in PositionsOf(routes[..last], model);
      hide PositionsOf;
    }
  }

  /** How many of the routes belong to one of the models, counted model by model. */
  ghost function Total(models: seq<string>, routes: seq<RouteView>): nat {
    if models == [] then 0 else Total(models[..|models| - 1], routes) + CountOf(routes, models[|models| - 1])
  }

  lemma {:induction false} TotalStep(models: seq<string>, routes: seq<RouteView>, r: RouteView)
    requires Distinct(models)
    ensures Total(models, routes + [r]) == Total(models, routes) + if r.model in models then 1 else 0
    decreases |models|
  {
    if models != [] {
      var init, last := models[..|models| - 1], models[|models| - 1];
      TotalStep(init, routes, r);
      assert (routes + [r])[..|routes|] == routes;
      assert r.model in models <==> r.model in init || r.model == last;
      assert last !in init;
    }
  }

  lemma {:induction false} TotalIsAll(models: seq<string>, routes: seq<RouteView>)
    requires Distinct(models) && forall i :: 0 <= i < |routes| ==> routes[i].model in models
    ensures Total(models, routes) == |routes|
    decreases |routes|
  {
    if routes == [] {
      TotalOfNone(models);
    } else {
      var init := routes[..|routes| - 1];
      TotalIsAll(models, init);
      TotalStep(models, init, routes[|routes| - 1]);
      assert routes == init + [routes[|routes| - 1]];
    }
  }

  lemma {:induction false} TotalOfNone(models: seq<string>)
    ensures Total(models, []) == 0
  {
    if models != [] {
      TotalOfNone(models[..|models| - 1]);
    }
  }

  ghost function SumOfCounts(models: seq<ModelView>): nat {
    if models == [] then 0 else SumOfCounts(models[..|models| - 1]) + models[|models| - 1].routeCount
  }

  lemma {:induction false} SumIsTotal(views: seq<ModelView>, names: seq<string>, routes: seq<RouteView>)
    requires |views| == |names|
    requires forall i :: 0 <= i < |names| ==> views[i] == ModelView(names[i], CountOf(routes, names[i]))
    ensures SumOfCounts(views) == Total(names, routes)
    decreases |names|
  {
    if names != [] {
      SumIsTotal(views[..|views| - 1], names[..|names| - 1], routes);
    }
  }

  /** The index holds exactly the entries of the list, each under its name. */
  ghost predicate Indexes<T>(index: map<string, T>, list: seq<T>, nameOf: T -> string) {
    && (forall i :: 0 <= i < |list| ==> nameOf(list[i]) in index && index[nameOf(list[i])] == list[i])
    && (forall name :: name in index ==> exists i :: 0 <= i < |list| && nameOf(list[i]) == name)
  }

  method IndexByName<T>(list: seq<T>, nameOf: T -> string) returns (index: map<string, T>)
    requires forall i, j :: 0 <= i < j < |list| ==> nameOf(list[i]) != nameOf(list[j])
    ensures Indexes(index, list, nameOf)
  {
    index := map[];
    for i := 0 to |list|
      invariant forall j :: 0 <= j < i ==> nameOf(list[j]) in index && index[nameOf(list[j])] == list[j]
      invariant forall name :: name in index ==> exists j :: 0 <= j < i && nameOf(list[j]) == name
    {
      index := index[nameOf(list[i]) := list[i]];
    }
  }

  /** The reduce that counts the routes of each model. */
  method CountRoutes(routes: seq<RouteView>) returns (counts: map<string, nat>)
    requires forall i :: 0 <= i < |routes| ==> routes[i].model != ""
    ensures forall model :: (if model in counts then counts[model] else 0) == CountOf(routes, model)
  {
    counts := map[];
    for i := 0 to |routes|
      invariant forall model :: (if model in counts then counts[model] else 0) == CountOf(routes[..i], model)
    {
      assert routes[..i + 1][..i] == routes[..i];
      var model := routes[i].model;
      if |model| > 0 {
        counts := counts[model := (if model in counts then counts[model] else 0) + 1];
      }
    }
    assert routes[..|routes|] == routes;
  }

  function RouteViewOf(name: string, route: Route): RouteView {
    RouteView(name, route.model, route.serviceProvider)
  }

  /** `loadCliReadModel` on a loaded config. The route counts of the models add up to the number
      of routes, the three indexes hold exactly the entries of their lists, and each provider is
      labelled with the source of its key. */
  method LoadCliReadModel(
    s: Snapshot, providers: JsValue, models: JsValue, routes: JsValue, loader: Loader,
    apiKeyOverrides: map<string, string>)
    returns (r: ReadModel)
    requires IsSnapshot(s, providers, models, routes, loader)
    ensures |r.routes| == |routes.keys|
    ensures forall i :: 0 <= i < |r.routes| ==>
      && r.routes[i].name == routes.keys[i] && Field(routes.values[i], "model") == Some(Str(r.routes[i].model))
      && Field(routes.values[i], "service_provider") == Some(Str(r.routes[i].serviceProvider))
    ensures |r.models| == |models.keys|
    ensures forall i ::
      0 <= i < |r.models| ==> r.models[i] == ModelView(models.keys[i], CountOf(r.routes, models.keys[i]))
    ensures SumOfCounts(r.models) == |r.routes|
    ensures |r.providers| == |providers.keys| && forall i :: 0 <= i < |r.providers| ==>
      r.providers[i] == ProviderView(providers.keys[i], GetAuthSource(s.providers[providers.keys[i]], apiKeyOverrides))
    ensures Indexes(r.modelsByName, r.models, (m: ModelView) => m.name)
    ensures Indexes(r.providersByName, r.providers, (p: ProviderView) => p.name)
    ensures Indexes(r.routesByName, r.routes, (t: RouteView) => t.name)
  {
    hide IsSnapshot, GetAuthSource, CountOf, SumOfCounts, Total, Field;
    SnapshotShape(s, providers, models, routes, loader);
    var routeViews :=
      seq(|routes.keys|, i requires 0 <= i < |routes.keys| => RouteViewOf(routes.keys[i], s.routes[routes.keys[i]]));
    var counts := CountRoutes(routeViews);
    var modelViews := seq(|models.keys|, i requires 0 <= i < |models.keys| =>
      ModelView(models.keys[i], if models.keys[i] in counts then counts[models.keys[i]] else 0));
    var providerViews := seq(|providers.keys|, i requires 0 <= i < |providers.keys| =>
      ProviderView(providers.keys[i], GetAuthSource(s.providers[providers.keys[i]], apiKeyOverrides)));
    forall i | 0 <= i < |routes.keys|
      ensures Field(routes.values[i], "model") == Some(Str(routeViews[i].model))
      ensures Field(routes.values[i], "service_provider") == Some(Str(routeViews[i].serviceProvider))
    {
      EntryOfRoute(s, providers, models, routes, loader, i);
    }
    SumIsTotal(modelViews, models.keys, routeViews);
    TotalIsAll(models.keys, routeViews);
    var modelsByName := IndexByName(modelViews, (m: ModelView) => m.name);
    var providersByName := IndexByName(providerViews, (p: ProviderView) => p.name);
    var routesByName := IndexByName(routeViews, (t: RouteView) => t.name);
    r := ReadModel(modelViews, modelsByName, providerViews, providersByName, routeViews, routesByName);
  }

  lemma EntryOfRoute(s: Snapshot, providers: JsValue, models: JsValue, routes: JsValue, loader: Loader, i: nat)
    requires IsSnapshot(s, providers, models, routes, loader) && i < |routes.keys|
    ensures |routes.values| == |routes.keys| && routes.keys[i] in s.routes
    ensures Field(routes.values[i], "model") == Some(Str(s.routes[routes.keys[i]].model))
    ensures Field(routes.values[i], "service_provider") == Some(Str(s.routes[routes.keys[i]].serviceProvider))
  {
    hide AuthResolves, OverrideOf, Field;
    assert Some(s.routes[routes.keys[i]]) == loader.Routes(s.providers, s.models.Keys)(routes.values[i]);
  }

  /** The sections of a loaded config and the entries the snapshot has for them. */
  lemma SnapshotShape(s: Snapshot, providers: JsValue, models: JsValue, routes: JsValue, loader: Loader)
    requires IsSnapshot(s, providers, models, routes, loader)
    ensures providers.Obj? && Distinct(providers.keys)
    ensures forall i :: 0 <= i < |providers.keys| ==> providers.keys[i] in s.providers
    ensures models.Obj? && Distinct(models.keys)
    ensures routes.Obj? && |routes.values| == |routes.keys| && Distinct(routes.keys)
    ensures forall i :: 0 <= i < |routes.keys| ==> routes.keys[i] in s.routes
    ensures forall i ::
      0 <= i < |routes.keys| ==> s.routes[routes.keys[i]].model in models.keys && s.routes[routes.keys[i]].model != ""
  {
    hide ValidateProvider, ValidateRoute;
    forall i | 0 <= i < |routes.keys|
      ensures s.routes[routes.keys[i]].model in models.keys && s.routes[routes.keys[i]].model != ""
    {
      RouteOfSnapshot(s, providers, models, routes, loader, routes.keys[i]);
      RouteModelNotEmpty(s, providers, models, routes, loader, routes.keys[i]);
    }
  }

  lemma RouteModelNotEmpty(
    s: Snapshot, providers: JsValue, models: JsValue, routes: JsValue, loader: Loader, name: string)
    requires IsSnapshot(s, providers, models, routes, loader) && name in s.routes
    ensures s.routes[name].model != ""
  {
    hide AuthResolves, OverrideOf, Field;
    var i :| 0 <= i < |routes.keys| && routes.keys[i] == name;
    assert Some(s.routes[name]) == loader.Routes(s.providers, s.models.Keys)(routes.values[i]);
  }
}
