/** How `wctl` settles the API key before a command runs. The key lives in
    a package-level setting that the `--api-key` flag fills; `loadAPIKey`
    then falls back, in order, to the `WATCHER_API_KEY` environment
    variable and to the "default" key file under `~/.watcher/keys`. The
    environment and the key file are inputs. */
module WctlRoot {
  import opened Wrappers

  /** The key the settings hold once resolution is done. `parentUse` is
      the `Use` of the command's parent, if it has one; `env` is the value
      of `WATCHER_API_KEY` ("" when unset); `stored` is the default key
      file's contents, or none when the home directory, the key directory
      or the file cannot be read. */
  function Resolve(parentUse: Option<string>, flag: string, env: string, stored: Option<string>): (key: string)
    ensures parentUse == Some("key") ==> key == flag
    ensures flag != "" ==> key == flag
    ensures parentUse != Some("key") && flag == "" && env != "" ==> key == env
    ensures parentUse != Some("key") && flag == "" && env == "" ==>
      key == (if stored.Some? then stored.value else "")
  {
    if parentUse == Some("key") || flag != "" then flag
    else if env != "" then env
    else if stored.Some? then stored.value
    else ""
  }

  /** The key always comes from one of the three places, or is empty. */
  lemma ResolveSource(parentUse: Option<string>, flag: string, env: string, stored: Option<string>)
    ensures var key := Resolve(parentUse, flag, env, stored);
      key == flag || key == env || (stored.Some? && key == stored.value) || key == ""
  {
  }

  /** A non-empty flag decides alone: the environment and the key file are
      not consulted. */
  lemma FlagWins(parentUse: Option<string>, flag: string, env1: string, env2: string, s1: Option<string>, s2: Option<string>)
    requires flag != ""
    ensures Resolve(parentUse, flag, env1, s1) == Resolve(parentUse, flag, env2, s2) == flag
  {
  }

  /** An empty environment value counts as unset: it and an unset variable
      lead to the same key. */
  lemma EmptyEnvIsUnset(parentUse: Option<string>, flag: string, stored: Option<string>)
    requires parentUse != Some("key") && flag == ""
    ensures Resolve(parentUse, flag, "", stored) == (if stored.Some? then stored.value else "")
  {
  }

  /** The command-line settings `loadAPIKey` updates. */
  class Settings {
    var apiKey: string

    /** The settings after flag parsing: the value of `--api-key`. */
    constructor (flag: string)
      ensures apiKey == flag
    {
      apiKey := flag;
    }

    /** `loadAPIKey`: commands under `key` leave the key alone; otherwise a
        key already set stays, then the environment and then the key file
        are tried. A failing fallback leaves the key empty, and resolution
        itself never fails. */
    method LoadAPIKey(parentUse: Option<string>, env: string, stored: Option<string>) returns (err: Option<string>)
      modifies this
      ensures apiKey == Resolve(parentUse, old(apiKey), env, stored)
      ensures err == None
    {
      err := None;
      if parentUse == Some("key") {
        return;
      }
      if apiKey != "" {
        return;
      }
      if env != "" {
        apiKey := env;
        return;
      }
      match stored {
        case None =>
          return;
        case Some(key) =>
          apiKey := key;
      }
    }
  }
}
