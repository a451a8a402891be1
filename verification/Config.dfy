/**
 The persisted configuration: loading with temporary overrides and saving (pkg/config/config.go),
 and the context commands that load, change and save it (cmd/context).
 */
module Config {
  import opened Text

  const DEFAULT_CONTEXT := "default"
  const MAX_NAME_LENGTH := 48

  /** ContextConfig without the fields no command here touches. */
  datatype Context = Context(defaultProvider: string, options: map<string, string>, originalProvider: string)

  /** The config file; `originalProvider` is not part of it. */
  datatype Stored = Stored(defaultContext: string, contexts: map<string, Context>)

  /** The config in memory. */
  datatype Config = Config(defaultContext: string, contexts: map<string, Context>, originalContext: string)

  const EMPTY := Context("", map[], "")

  // ---- load and save ----

  function Present(contexts: map<string, Context>, name: string): map<string, Context> {
    if name in contexts then contexts else contexts[name := EMPTY]
  }

  function Override(contexts: map<string, Context>, name: string, provider: string): map<string, Context>
    requires name in contexts
  {
    if provider == "" then contexts
    else contexts[name := contexts[name].(originalProvider := contexts[name].defaultProvider,
                                          defaultProvider := provider)]
  }

  /** LoadConfig; no file yields a config with one fresh context. */
  function Load(file: Option<Stored>, contextOverride: string, providerOverride: string): (c: Config)
    ensures c.defaultContext in c.contexts
  {
    match file
    case None =>
      var name := if contextOverride == "" then DEFAULT_CONTEXT else contextOverride;
      Config(name, map[name := Context(providerOverride, map[], "")], "")
    case Some(s) =>
      var name := if contextOverride != "" then contextOverride
                  else if s.defaultContext == "" then DEFAULT_CONTEXT else s.defaultContext;
      var contexts := Override(Present(s.contexts, name), name, providerOverride);
      Config(name, contexts, if contextOverride != "" then s.defaultContext else "")
  }

  /** The context SaveConfig looks up and stores as the default. */
  function SavedDefault(c: Config): string {
    if c.originalContext != "" then c.originalContext else c.defaultContext
  }

  function Forget(contexts: map<string, Context>): map<string, Context> {
    map name | name in contexts :: contexts[name].(originalProvider := "")
  }

  /** SaveConfig; None where it follows a nil pointer. */
  function Save(c: Config): Option<Stored> {
    var name := SavedDefault(c);
    if name !in c.contexts then None
    else
      var ctx := c.contexts[name];
      var contexts := if ctx.originalProvider == "" then c.contexts
                      else c.contexts[name := ctx.(defaultProvider := ctx.originalProvider)];
      Some(Stored(name, Forget(contexts)))
  }

  // ---- commands ----

  datatype Error = AlreadyExists | DoesNotExist | InvalidName | NameTooLong | InvalidOption | CannotDeleteDefault

  /** The result of a command: the file as it is afterwards, or a nil dereference in SaveConfig. */
  datatype Result = Ran(file: Option<Stored>) | Refused(error: Error) | Crashed

  predicate ValidName(name: string) {
    forall k :: 0 <= k < |name| ==> 'a' <= name[k] <= 'z' || '0' <= name[k] <= '9' || name[k] == '-'
  }

  datatype Command =
    | Create(context: string, options: Option<map<string, string>>, provider: string)
    | Use(context: string, options: Option<map<string, string>>, provider: string)
    | SetOptions(context: string, options: Option<map<string, string>>, provider: string)
    | Delete(context: string, provider: string)
    | SaveUnder(context: string, provider: string) // any other command that loads with overrides and saves

  function Saved(c: Config): Result {
    match Save(c)
    case None => Crashed
    case Some(s) => Ran(Some(s))
  }

  function Merge(c: Config, name: string, options: map<string, string>): Config
    requires name in c.contexts
  {
    c.(contexts := c.contexts[name := c.contexts[name].(options := c.contexts[name].options + options)])
  }

  /** What a command does to the file. `options` is None when an option does not parse. */
  function Step(file: Option<Stored>, command: Command): Result {
    match command
    case Create(name, options, provider) =>
      var c := Load(file, "", provider);
      if name in c.contexts then Refused(AlreadyExists)
      else if !ValidName(name) then Refused(InvalidName)
      else if |name| > MAX_NAME_LENGTH then Refused(NameTooLong)
      else if options.None? then Refused(InvalidOption)
      else
        var c := c.(contexts := c.contexts[name := EMPTY]);
        Saved(Merge(c, name, options.value).(defaultContext := name))
    case Use(name, options, provider) =>
      var c := Load(file, "", provider);
      if name !in c.contexts then Refused(DoesNotExist)
      else if options.None? then Refused(InvalidOption)
      else Saved(Merge(c, name, options.value).(defaultContext := name))
    case SetOptions(context, options, provider) =>
      var c := Load(file, "", provider);
      var name := if context == "" then c.defaultContext else context;
      if name !in c.contexts then Refused(DoesNotExist)
      else if options.None? then Refused(InvalidOption)
      else Saved(Merge(c, name, options.value))
    case Delete(context, provider) =>
      var c := Load(file, context, provider);
      var name := if context == "" then c.defaultContext else context;
      if name == DEFAULT_CONTEXT then Refused(CannotDeleteDefault)
      else Saved(Config(if c.defaultContext == name then DEFAULT_CONTEXT else c.defaultContext,
                        c.contexts - {name},
                        if c.originalContext == name then DEFAULT_CONTEXT else c.originalContext))
    case SaveUnder(context, provider) =>
      Saved(Load(file, context, provider))
  }

  /** The commands as they run: a config is loaded, changed in place and saved back to the file. */
  class Store {
    var file: Option<Stored>

    constructor (file: Option<Stored>)
      ensures this.file == file
    {
      this.file := file;
    }

    method LoadConfig(contextOverride: string, providerOverride: string) returns (config: Config)
      ensures config == Load(file, contextOverride, providerOverride)
    {
      if file.None? {
        var context := contextOverride;
        if context == "" {
          context := DEFAULT_CONTEXT;
        }
        return Config(context, map[context := Context(providerOverride, map[], "")], "");
      }
      config := Config(file.value.defaultContext, file.value.contexts, "");
      if contextOverride != "" {
        config := config.(originalContext := config.defaultContext);
        config := config.(defaultContext := contextOverride);
      } else if config.defaultContext == "" {
        config := config.(defaultContext := DEFAULT_CONTEXT);
      }
      var name := config.defaultContext;
      if name !in config.contexts {
        config := config.(contexts := config.contexts[name := EMPTY]);
      }
      if providerOverride != "" {
        var ctx := config.contexts[name];
        ctx := ctx.(originalProvider := ctx.defaultProvider);
        ctx := ctx.(defaultProvider := providerOverride);
        config := config.(contexts := config.contexts[name := ctx]);
      }
    }

    method SaveConfig(config: Config) returns (crashed: bool)
      modifies this
      ensures crashed <==> Save(config).None?
      ensures crashed ==> file == old(file)
      ensures !crashed ==> file == Save(config)
    {
      var c := config;
      if c.originalContext != "" {
        c := c.(defaultContext := c.originalContext);
      }
      if c.defaultContext !in c.contexts {
        return true;
      }
      var ctx := c.contexts[c.defaultContext];
      if ctx.originalProvider != "" {
        c := c.(contexts := c.contexts[c.defaultContext := ctx.(defaultProvider := ctx.originalProvider)]);
      }
      file := Some(Stored(c.defaultContext, Forget(c.contexts)));
      return false;
    }

    method SaveOr(config: Config) returns (r: Result)
      modifies this
      ensures r == Saved(config)
      ensures r.Ran? ==> file == r.file
      ensures !r.Ran? ==> file == old(file)
    {
      var crashed := SaveConfig(config);
      return if crashed then Crashed else Ran(file);
    }

    method RunCreate(context: string, options: Option<map<string, string>>, provider: string) returns (r: Result)
      modifies this
      ensures r == Step(old(file), Create(context, options, provider))
      ensures file == if r.Ran? then r.file else old(file)
    {
      var config := LoadConfig("", provider);
      if context in config.contexts {
        return Refused(AlreadyExists);
      }
      if !ValidName(context) {
        return Refused(InvalidName);
      } else if |context| > MAX_NAME_LENGTH {
        return Refused(NameTooLong);
      }
      config := config.(contexts := config.contexts[context := EMPTY]);
      if options.None? {
        return Refused(InvalidOption);
      }
      config := Merge(config, context, options.value);
      config := config.(defaultContext := context);
      r := SaveOr(config);
    }

    method RunUse(context: string, options: Option<map<string, string>>, provider: string) returns (r: Result)
      modifies this
      ensures r == Step(old(file), Use(context, options, provider))
      ensures file == if r.Ran? then r.file else old(file)
    {
      var config := LoadConfig("", provider);
      if context !in config.contexts {
        return Refused(DoesNotExist);
      }
      if options.None? {
        return Refused(InvalidOption);
      }
      config := Merge(config, context, options.value);
      config := config.(defaultContext := context);
      r := SaveOr(config);
    }

    method RunSetOptions(context: string, options: Option<map<string, string>>, provider: string) returns (r: Result)
      modifies this
      ensures r == Step(old(file), SetOptions(context, options, provider))
      ensures file == if r.Ran? then r.file else old(file)
    {
      var config := LoadConfig("", provider);
      var name := context;
      if name == "" {
        name := config.defaultContext;
      } else if name !in config.contexts {
        return Refused(DoesNotExist);
      }
      if options.None? {
        return Refused(InvalidOption);
      }
      config := Merge(config, name, options.value);
      r := SaveOr(config);
    }

    method RunDelete(context: string, provider: string) returns (r: Result)
      modifies this
      ensures r == Step(old(file), Delete(context, provider))
      ensures file == if r.Ran? then r.file else old(file)
    {
      var config := LoadConfig(context, provider);
      var name := context;
      if name == "" {
        name := config.defaultContext;
      } else if name !in config.contexts {
        return Refused(DoesNotExist);
      }
      if name == "default" {
        return Refused(CannotDeleteDefault);
      }
      config := config.(contexts := config.contexts - {name});
      if config.defaultContext == name {
        config := config.(defaultContext := "default");
      }
      if config.originalContext == name {
        config := config.(originalContext := "default");
      }
      r := SaveOr(config);
    }

    /** Any other command that loads under overrides and saves. */
    method RunUnder(context: string, provider: string) returns (r: Result)
      modifies this
      ensures r == Step(old(file), SaveUnder(context, provider))
      ensures file == if r.Ran? then r.file else old(file)
    {
      var config := LoadConfig(context, provider);
      r := SaveOr(config);
    }
  }

  // ---- no sequence of commands loses a context that is needed ----

  /** The file holds "default", and the default context it names (an empty name means "default"). */
  predicate Sound(file: Option<Stored>) {
    && file.Some? && DEFAULT_CONTEXT in file.value.contexts
    && (file.value.defaultContext == "" || file.value.defaultContext in file.value.contexts)
  }

  /** Every command keeps a sound file sound and never crashes. */
  lemma StepSound(file: Option<Stored>, command: Command)
    requires Sound(file)
    ensures var r := Step(file, command);
            r != Crashed && (r.Ran? ==> Sound(r.file))
  {
  }

  function Run(file: Option<Stored>, commands: seq<Command>): Result
    decreases |commands|
  {
    if commands == [] then Ran(file)
    else match Step(file, commands[0])
      case Crashed => Crashed
      case Refused(_) => Run(file, commands[1..])
      case Ran(file') => Run(file', commands[1..])
  }

  /** From a sound file, every sequence of commands ends in a sound file without a crash. */
  lemma {:induction false} RunSound(file: Option<Stored>, commands: seq<Command>)
    requires Sound(file)
    ensures Run(file, commands).Ran? && Sound(Run(file, commands).file)
    decreases |commands|
  {
    if commands != [] {
      StepSound(file, commands[0]);
      match Step(file, commands[0])
      case Refused(_) => RunSound(file, commands[1..]);
      case Ran(file') => RunSound(file', commands[1..]);
    }
  }

  /**
   Deleting a context that does not exist is not refused, although the command checks for it: loading
   under the name to delete has just created it. The only refusal is for "default".
   */
  lemma DeleteRefusesOnlyDefault(file: Option<Stored>, context: string, provider: string)
    requires Sound(file)
    ensures var name := Loaded(file.value, context);
            var r := Step(file, Delete(context, provider));
            && (r.Refused? <==> name == DEFAULT_CONTEXT)
            && (r.Ran? ==> r.file.value.contexts.Keys == file.value.contexts.Keys - {name})
  {
  }

  /** Without a config file, or with one that is not sound, these commands crash SaveConfig. */
  function CrashingRun(file: Option<Stored>): seq<Command> {
    if file.None? || file.value.defaultContext == "" then [SaveUnder("work", ""), Delete("work", "")]
    else
      var d := file.value.defaultContext;
      if d in file.value.contexts then [Delete(d, "")]
      else [SaveUnder(if d == DEFAULT_CONTEXT then "work" else DEFAULT_CONTEXT, "")]
  }

  lemma NotSoundCrashes(file: Option<Stored>)
    requires !Sound(file)
    ensures Run(file, CrashingRun(file)) == Crashed
  {
  }

  /**
   Soundness is exactly what is needed: no sequence of commands ever makes SaveConfig look up a
   missing context if and only if the file is there, holds "default" and holds its stored default.
   */
  lemma NeverCrashesIff(file: Option<Stored>)
    ensures (forall commands: seq<Command> :: Run(file, commands) != Crashed) <==> Sound(file)
  {
    if Sound(file) {
      forall commands: seq<Command> ensures Run(file, commands) != Crashed {
        RunSound(file, commands);
      }
    } else {
      NotSoundCrashes(file);
    }
  }

  // ---- temporary overrides ----

  /** Nothing of the overrides is left in the file. */
  predicate NoLeak(before: Stored, after: Stored) {
    && after.defaultContext == before.defaultContext
    && forall name :: name in before.contexts ==>
         name in after.contexts && after.contexts[name].defaultProvider == before.contexts[name].defaultProvider
  }

  /** No originalProvider in a file: it is not a stored field. */
  predicate IsFile(s: Stored) {
    forall name :: name in s.contexts ==> s.contexts[name].originalProvider == ""
  }

  /**
   Loading under overrides and saving leaves no trace exactly when the stored default context has a
   name and is there (or is the one the override creates), and a provider override either is none,
   or changes nothing, or falls on a context that did not exist, or is applied in the stored default
   context while that already had a provider.
   */
  lemma OverridesLeaveNoTrace(s: Stored, contextOverride: string, providerOverride: string)
    requires IsFile(s)
    ensures var c := Load(Some(s), contextOverride, providerOverride);
            var name := c.defaultContext;
            (Save(c).Some? && NoLeak(s, Save(c).value)) <==>
            (&& s.defaultContext != ""
             && (s.defaultContext in s.contexts || s.defaultContext == name)
             && (|| providerOverride == ""
                 || name !in s.contexts
                 || s.contexts[name].defaultProvider == providerOverride
                 || (name == s.defaultContext && s.contexts[name].defaultProvider != "")))
  {
  }

  /** The context a command loads, and the one whose provider SaveConfig can restore. */
  function Loaded(s: Stored, context: string): string {
    if context != "" then context else if s.defaultContext == "" then DEFAULT_CONTEXT else s.defaultContext
  }

  function Restorable(s: Stored, command: Command): string {
    match command
    case Create(name, _, _) => name
    case Use(name, _, _) => name
    case SetOptions(_, _, _) => Loaded(s, "")
    case Delete(_, _) => DEFAULT_CONTEXT // the context loaded is the one deleted
    case SaveUnder(context, _) => if s.defaultContext == "" then Loaded(s, context) else s.defaultContext
  }

  /**
   The provider override of a command leaves no trace: there is none, it changes nothing, it falls on
   a context that is new or deleted, or it falls where SaveConfig restores a provider that was set.
   */
  predicate ProviderRestored(s: Stored, command: Command) {
    var name := Loaded(s, if command.SaveUnder? then command.context else "");
    || command.provider == "" || command.Delete?
    || name !in s.contexts || s.contexts[name].defaultProvider == command.provider
    || (Restorable(s, command) == name && s.contexts[name].defaultProvider != "")
  }

  /** The contexts that survive a command keep their providers. */
  ghost predicate ProvidersKept(s: Stored, command: Command)
    requires Step(Some(s), command).Ran?
  {
    var after := Step(Some(s), command).file;
    after.Some? && forall name :: name in s.contexts && name in after.value.contexts ==>
      after.value.contexts[name].defaultProvider == s.contexts[name].defaultProvider
  }

  /** A config as loaded from a file, as far as providers go: one context may carry an override. */
  ghost predicate LoadedFrom(s: Stored, c: Config, at: string, provider: string) {
    forall name :: name in s.contexts && name in c.contexts ==>
      var was := s.contexts[name].defaultProvider;
      if name == at && provider != "" then c.contexts[name] == Context(provider, c.contexts[name].options, was)
      else c.contexts[name] == Context(was, c.contexts[name].options, "")
  }

  lemma LoadIsLoaded(s: Stored, context: string, provider: string)
    requires IsFile(s)
    ensures var c, at := Load(Some(s), context, provider), Loaded(s, context);
            && c.defaultContext == at && c.originalContext == (if context != "" then s.defaultContext else "")
            && c.contexts.Keys == s.contexts.Keys + {at} && LoadedFrom(s, c, at, provider)
  {
  }

  lemma MergeIsLoaded(s: Stored, c: Config, at: string, provider: string, name: string, options: map<string, string>)
    requires LoadedFrom(s, c, at, provider) && name in c.contexts
    ensures LoadedFrom(s, Merge(c, name, options), at, provider)
  {
  }

  lemma SameContexts(s: Stored, c: Config, c': Config, at: string, provider: string)
    requires LoadedFrom(s, c, at, provider) && c'.contexts == c.contexts
    ensures LoadedFrom(s, c', at, provider)
  {
  }

  lemma AddIsLoaded(s: Stored, c: Config, at: string, provider: string, name: string)
    requires LoadedFrom(s, c, at, provider) && name !in s.contexts
    ensures LoadedFrom(s, c.(contexts := c.contexts[name := EMPTY]), at, provider)
  {
  }

  lemma RemoveIsLoaded(s: Stored, c: Config, c': Config, at: string, provider: string)
    requires LoadedFrom(s, c, at, provider) && c'.contexts == c.contexts - {at}
    ensures LoadedFrom(s, c', at, provider)
  {
  }

  /** Saving such a config gives every context its provider back, exactly if the overridden one is restored. */
  lemma SavedKeeps(s: Stored, c: Config, at: string, provider: string)
    requires LoadedFrom(s, c, at, provider) && Save(c).Some?
    ensures Save(c).value.contexts.Keys == c.contexts.Keys
    ensures (forall name :: name in s.contexts && name in Save(c).value.contexts ==>
               Save(c).value.contexts[name].defaultProvider == s.contexts[name].defaultProvider)
            <==> (|| provider == "" || at !in s.contexts || at !in c.contexts
                  || s.contexts[at].defaultProvider == provider
                  || (SavedDefault(c) == at && s.contexts[at].defaultProvider != ""))
  {
    var after := Save(c).value.contexts;
    if provider != "" && at in s.contexts && at in c.contexts {
      assert after[at].defaultProvider
          == if SavedDefault(c) == at && s.contexts[at].defaultProvider != ""
             then s.contexts[at].defaultProvider else provider;
    }
  }

  lemma CreateProviders(s: Stored, context: string, options: Option<map<string, string>>, provider: string)
    requires IsFile(s) && Sound(Some(s)) && Step(Some(s), Create(context, options, provider)).Ran?
    ensures ProvidersKept(s, Create(context, options, provider))
            <==> ProviderRestored(s, Create(context, options, provider))
  {
    hide Save, Load, ValidName, LoadedFrom, IsFile;
    var c, at := Load(Some(s), "", provider), Loaded(s, "");
    LoadIsLoaded(s, "", provider);
    var c' := c.(contexts := c.contexts[context := EMPTY]);
    AddIsLoaded(s, c, at, provider, context);
    MergeIsLoaded(s, c', at, provider, context, options.value);
    var m := Merge(c', context, options.value);
    SameContexts(s, m, m.(defaultContext := context), at, provider);
    SavedKeeps(s, m.(defaultContext := context), at, provider);
  }

  lemma UseProviders(s: Stored, context: string, options: Option<map<string, string>>, provider: string)
    requires IsFile(s) && Sound(Some(s)) && Step(Some(s), Use(context, options, provider)).Ran?
    ensures ProvidersKept(s, Use(context, options, provider))
            <==> ProviderRestored(s, Use(context, options, provider))
  {
    hide Save, Load, ValidName, LoadedFrom, IsFile;
    var c, at := Load(Some(s), "", provider), Loaded(s, "");
    LoadIsLoaded(s, "", provider);
    MergeIsLoaded(s, c, at, provider, context, options.value);
    var c' := Merge(c, context, options.value);
    SameContexts(s, c', c'.(defaultContext := context), at, provider);
    SavedKeeps(s, c'.(defaultContext := context), at, provider);
  }

  lemma SetOptionsProviders(s: Stored, context: string, options: Option<map<string, string>>, provider: string)
    requires IsFile(s) && Sound(Some(s)) && Step(Some(s), SetOptions(context, options, provider)).Ran?
    ensures ProvidersKept(s, SetOptions(context, options, provider))
            <==> ProviderRestored(s, SetOptions(context, options, provider))
  {
    hide Save, Load, ValidName, LoadedFrom, IsFile;
    var c, at := Load(Some(s), "", provider), Loaded(s, "");
    LoadIsLoaded(s, "", provider);
    var name := if context == "" then c.defaultContext else context;
    MergeIsLoaded(s, c, at, provider, name, options.value);
    SavedKeeps(s, Merge(c, name, options.value), at, provider);
  }

  lemma DeleteProviders(s: Stored, context: string, provider: string)
    requires IsFile(s) && Sound(Some(s)) && Step(Some(s), Delete(context, provider)).Ran?
    ensures ProvidersKept(s, Delete(context, provider))
            <==> ProviderRestored(s, Delete(context, provider))
  {
    hide Save, Load, ValidName, LoadedFrom, IsFile;
    var c, at := Load(Some(s), context, provider), Loaded(s, context);
    LoadIsLoaded(s, context, provider);
    var c' := Config(if c.defaultContext == at then DEFAULT_CONTEXT else c.defaultContext, c.contexts - {at},
                     if c.originalContext == at then DEFAULT_CONTEXT else c.originalContext);
    RemoveIsLoaded(s, c, c', at, provider);
    SavedKeeps(s, c', at, provider);
  }

  lemma SaveProviders(s: Stored, context: string, provider: string)
    requires IsFile(s) && Sound(Some(s)) && Step(Some(s), SaveUnder(context, provider)).Ran?
    ensures ProvidersKept(s, SaveUnder(context, provider))
            <==> ProviderRestored(s, SaveUnder(context, provider))
  {
    hide Save, Load, ValidName, LoadedFrom, IsFile;
    LoadIsLoaded(s, context, provider);
    SavedKeeps(s, Load(Some(s), context, provider), Loaded(s, context), provider);
  }

  /**
   For every sound file and every command that runs: the contexts that survive keep their providers
   exactly if the override is restored. `create` never restores, since it makes another context the
   default; `use` does only for the current default, `set-options` only if a provider was set.
   */
  lemma ProvidersKeptIff(s: Stored, command: Command)
    requires IsFile(s) && Sound(Some(s)) && Step(Some(s), command).Ran?
    ensures ProvidersKept(s, command) <==> ProviderRestored(s, command)
  {
    hide ProvidersKept, ProviderRestored, Step;
    match command
    case Create(context, options, provider) => CreateProviders(s, context, options, provider);
    case Use(context, options, provider) => UseProviders(s, context, options, provider);
    case SetOptions(context, options, provider) => SetOptionsProviders(s, context, options, provider);
    case Delete(context, provider) => DeleteProviders(s, context, provider);
    case SaveUnder(context, provider) => SaveProviders(s, context, provider);
  }

  // ---- what each command leaves in the file ----

  /** The context whose options a command sets. */
  function OptionsOf(s: Stored, command: Command, name: string): map<string, string> {
    match command
    case Create(context, options, _) => if name == context && options.Some? then options.value else map[]
    case Use(context, options, _) => if name == context && options.Some? then options.value else map[]
    case SetOptions(context, options, _) =>
      if name == (if context == "" then Loaded(s, "") else context) && options.Some? then options.value else map[]
    case Delete(_, _) => map[]
    case SaveUnder(_, _) => map[]
  }

  predicate OptionsMerged(s: Stored, after: map<string, Context>, command: Command) {
    forall name :: name in after ==>
      after[name].options
      == (if name in s.contexts then s.contexts[name].options else map[]) + OptionsOf(s, command, name)
  }

  lemma SavedOptions(c: Config)
    requires Save(c).Some?
    ensures Save(c).value.contexts.Keys == c.contexts.Keys && Save(c).value.defaultContext == SavedDefault(c)
    ensures forall name :: name in c.contexts ==> Save(c).value.contexts[name].options == c.contexts[name].options
  {
  }

  lemma LoadedOptions(s: Stored, context: string, provider: string)
    ensures var c := Load(Some(s), context, provider);
            && c.contexts.Keys == s.contexts.Keys + {Loaded(s, context)} && c.defaultContext == Loaded(s, context)
            && c.originalContext == (if context != "" then s.defaultContext else "")
            && forall name :: name in c.contexts ==>
                 c.contexts[name].options == if name in s.contexts then s.contexts[name].options else map[]
  {
  }

  lemma MergedOptions(c: Config, name: string, options: map<string, string>)
    requires name in c.contexts
    ensures var r := Merge(c, name, options);
            && r.contexts.Keys == c.contexts.Keys
            && r.defaultContext == c.defaultContext && r.originalContext == c.originalContext
            && r.contexts[name].options == c.contexts[name].options + options
            && forall other :: other in c.contexts && other != name ==> r.contexts[other] == c.contexts[other]
  {
  }

  /** A config whose contexts are those of the file, with the command's options added to its context. */
  lemma MergedFile(s: Stored, command: Command, c: Config, name: string, options: map<string, string>)
    requires name in c.contexts && Save(Merge(c, name, options)).Some?
    requires forall other :: other in c.contexts ==>
               && c.contexts[other].options == (if other in s.contexts then s.contexts[other].options else map[])
               && OptionsOf(s, command, other) == if other == name then options else map[]
    ensures var after := Save(Merge(c, name, options)).value;
            && after.contexts.Keys == c.contexts.Keys && after.defaultContext == SavedDefault(c)
            && OptionsMerged(s, after.contexts, command)
  {
    hide Save, OptionsOf;
    MergedOptions(c, name, options);
    SavedOptions(Merge(c, name, options));
  }

  /** `create` adds the context with its options and makes it the default. */
  lemma CreateContents(s: Stored, name: string, options: Option<map<string, string>>, provider: string)
    requires Sound(Some(s)) && Step(Some(s), Create(name, options, provider)).Ran?
    ensures var after := Step(Some(s), Create(name, options, provider)).file.value;
            && after.contexts.Keys == s.contexts.Keys + {name} && after.defaultContext == name
            && OptionsMerged(s, after.contexts, Create(name, options, provider))
  {
    hide Load, Save, ValidName, OptionsMerged;
    var c := Load(Some(s), "", provider);
    LoadedOptions(s, "", provider);
    var c' := c.(contexts := c.contexts[name := EMPTY], defaultContext := name);
    assert Merge(c', name, options.value)
        == Merge(c.(contexts := c.contexts[name := EMPTY]), name, options.value).(defaultContext := name);
    MergedFile(s, Create(name, options, provider), c', name, options.value);
  }

  /** `use` makes the context the default and adds the options to those it has. */
  lemma UseContents(s: Stored, name: string, options: Option<map<string, string>>, provider: string)
    requires Sound(Some(s)) && Step(Some(s), Use(name, options, provider)).Ran?
    ensures var after := Step(Some(s), Use(name, options, provider)).file.value;
            && after.contexts.Keys == s.contexts.Keys && after.defaultContext == name
            && OptionsMerged(s, after.contexts, Use(name, options, provider))
  {
    hide Load, Save, ValidName, OptionsMerged;
    var c := Load(Some(s), "", provider);
    LoadedOptions(s, "", provider);
    var c' := c.(defaultContext := name);
    assert Merge(c', name, options.value) == Merge(c, name, options.value).(defaultContext := name);
    MergedFile(s, Use(name, options, provider), c', name, options.value);
  }

  /** `set-options` adds the options to the context named, or to the default one, and changes nothing else. */
  lemma SetOptionsContents(s: Stored, context: string, options: Option<map<string, string>>, provider: string)
    requires Sound(Some(s)) && Step(Some(s), SetOptions(context, options, provider)).Ran?
    ensures var after := Step(Some(s), SetOptions(context, options, provider)).file.value;
            && after.contexts.Keys == s.contexts.Keys && after.defaultContext == Loaded(s, "")
            && OptionsMerged(s, after.contexts, SetOptions(context, options, provider))
  {
    hide Load, Save, ValidName, OptionsMerged;
    var c := Load(Some(s), "", provider);
    LoadedOptions(s, "", provider);
    var name := if context == "" then c.defaultContext else context;
    MergedFile(s, SetOptions(context, options, provider), c, name, options.value);
  }

  /** `delete` takes the context away and falls back to "default" if it was the default one. */
  lemma DeleteContents(s: Stored, context: string, provider: string)
    requires Sound(Some(s)) && Step(Some(s), Delete(context, provider)).Ran?
    ensures var after := Step(Some(s), Delete(context, provider)).file.value;
            var gone := Loaded(s, context);
            && after.contexts.Keys == s.contexts.Keys - {gone}
            && after.defaultContext == (if Loaded(s, "") == gone then DEFAULT_CONTEXT else Loaded(s, ""))
            && OptionsMerged(s, after.contexts, Delete(context, provider))
  {
    hide Load, Save, ValidName;
    LoadedOptions(s, context, provider);
    var c, name := Load(Some(s), context, provider), Loaded(s, context);
    SavedOptions(Config(if c.defaultContext == name then DEFAULT_CONTEXT else c.defaultContext, c.contexts - {name},
                        if c.originalContext == name then DEFAULT_CONTEXT else c.originalContext));
  }

  /** Saving under overrides keeps the stored default and adds at most the context it works under. */
  lemma SaveContents(s: Stored, context: string, provider: string)
    requires Sound(Some(s)) && Step(Some(s), SaveUnder(context, provider)).Ran?
    ensures var after := Step(Some(s), SaveUnder(context, provider)).file.value;
            && after.contexts.Keys == s.contexts.Keys + {Loaded(s, context)}
            && after.defaultContext == (if s.defaultContext != "" then s.defaultContext else Loaded(s, context))
            && OptionsMerged(s, after.contexts, SaveUnder(context, provider))
  {
    hide Load, Save, ValidName;
    LoadedOptions(s, context, provider);
    SavedOptions(Load(Some(s), context, provider));
  }

  /** When a command is refused, on any file. */
  lemma RefusedIff(s: Stored, name: string, options: Option<map<string, string>>, provider: string)
    ensures Step(Some(s), Create(name, options, provider)).Refused? <==>
            || name in s.contexts || name == Loaded(s, "") || |name| > 48 || options.None?
            || exists k :: 0 <= k < |name| && !('a' <= name[k] <= 'z' || '0' <= name[k] <= '9' || name[k] == '-')
    ensures Step(Some(s), Use(name, options, provider)).Refused? <==>
            (name !in s.contexts && name != Loaded(s, "")) || options.None?
    ensures Step(Some(s), SetOptions(name, options, provider)).Refused? <==>
            (name != "" && name !in s.contexts && name != Loaded(s, "")) || options.None?
    ensures Step(Some(s), Delete(name, provider)).Refused? <==> Loaded(s, name) == "default"
    ensures !Step(Some(s), SaveUnder(name, provider)).Refused?
  {
    hide Load, Save;
    LoadedOptions(s, "", provider);
    LoadedOptions(s, name, provider);
  }

  /** Without a file, a command that saves writes the context it works under, with the provider it is given. */
  lemma FirstSave(context: string, provider: string)
    ensures var name := if context == "" then "default" else context;
            Step(None, SaveUnder(context, provider))
            == Ran(Some(Stored(name, map[name := Context(provider, map[], "")])))
  {
    var c := Load(None, context, provider);
    assert Forget(c.contexts) == c.contexts;
  }

  /** Without a file, `create` writes the new context beside an empty "default". */
  lemma FirstCreate(name: string, options: map<string, string>, provider: string)
    requires ValidName(name) && |name| <= 48 && name != "default"
    ensures var contexts := map["default" := Context(provider, map[], ""), name := Context("", options, "")];
            Step(None, Create(name, Some(options), provider)) == Ran(Some(Stored(name, contexts)))
  {
    var c := Load(None, "", provider);
    var merged := Merge(c.(contexts := c.contexts[name := EMPTY]), name, options);
    assert EMPTY.options + options == options;
    assert Forget(merged.contexts) == map["default" := Context(provider, map[], ""), name := Context("", options, "")];
  }
}
